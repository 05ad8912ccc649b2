/** eos/errors.go: the error a stat returns for a path the server did not
    answer for. */
module EosErrors {
  import opened Common
  import opened Text

  const NoSuchResourcePrefix := "no such resource: "

  /** ErrNoSuchResource.Error(): the fixed prefix followed by the path. */
  function ErrorText(e: Error): (m: string)
    requires e.NoSuchResource?
    ensures HasPrefix(m, NoSuchResourcePrefix)
    ensures HasSuffix(m, e.path)
    ensures |m| == |NoSuchResourcePrefix| + |e.path|
  {
    NoSuchResourcePrefix + e.path
  }

  /** Distinct paths give distinct messages. */
  lemma ErrorTextInjective(p: string, q: string)
    requires ErrorText(NoSuchResource(p)) == ErrorText(NoSuchResource(q))
    ensures p == q
  {
    var m := ErrorText(NoSuchResource(p));
    assert m[|NoSuchResourcePrefix|..] == p;
    assert m[|NoSuchResourcePrefix|..] == q;
  }
}
