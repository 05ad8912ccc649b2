/** Go's lexical path functions (path/filepath on a '/'-separated system, and
    path.Join, which agrees with filepath.Join there), defined over the
    fields of a path. */
module FilePath {
  import opened Common
  import opened Text

  /** The '/'-separated fields of `s`, empty ones included:
      "/a//b" has the fields "", "a", "", "b". */
  function Fields(s: string): (r: seq<string>)
    ensures |r| >= 1
    ensures forall k :: 0 <= k < |r| ==> '/' !in r[k]
    decreases |s|
  {
    if s == [] then [""]
    else
      var rest := Fields(s[1..]);
      if s[0] == '/' then [""] + rest else [[s[0]] + rest[0]] + rest[1..]
  }

  /** Fields glued back together with '/'. */
  function JoinFields(segs: seq<string>): string
    requires |segs| >= 1
    decreases |segs|
  {
    if |segs| == 1 then segs[0] else segs[0] + "/" + JoinFields(segs[1..])
  }

  /** strings.Join(segs, "/"), which is "" for no segments. */
  function JoinSlash(segs: seq<string>): string {
    if segs == [] then "" else JoinFields(segs)
  }

  lemma JoinFieldsConsHead(x: string, y: string, tail: seq<string>)
    ensures JoinFields([x + y] + tail) == x + JoinFields([y] + tail)
  {
    if tail != [] {
      assert ([x + y] + tail)[1..] == tail;
      assert ([y] + tail)[1..] == tail;
    }
  }

  /** Splitting at '/' and joining again gives the path back. */
  lemma {:induction false} JoinFieldsOfFields(s: string)
    ensures JoinFields(Fields(s)) == s
    decreases |s|
  {
    if s != [] {
      var rest := Fields(s[1..]);
      JoinFieldsOfFields(s[1..]);
      if s[0] == '/' {
        assert ([""] + rest)[1..] == rest;
        assert s == "/" + s[1..];
      } else {
        assert rest == [rest[0]] + rest[1..];
        JoinFieldsConsHead([s[0]], rest[0], rest[1..]);
        assert s == [s[0]] + s[1..];
      }
    }
  }

  /** The element loop of filepath.Clean: drop empty and "." elements, let ".."
      remove the element before it, keep a leading ".." only in a relative path. */
  function Normalize(segs: seq<string>, out: seq<string>, rooted: bool): seq<string>
    decreases |segs|
  {
    if segs == [] then out
    else
      var e := segs[0];
      if e == "" || e == "." then Normalize(segs[1..], out, rooted)
      else if e == ".." then
        if |out| > 0 && out[|out| - 1] != ".." then Normalize(segs[1..], out[..|out| - 1], rooted)
        else if rooted then Normalize(segs[1..], out, rooted)
        else Normalize(segs[1..], out + [".."], rooted)
      else Normalize(segs[1..], out + [e], rooted)
  }

  /** filepath.Clean. */
  function Clean(p: string): (r: string)
    ensures r != []
  {
    if p == [] then "."
    else
      var rooted := p[0] == '/';
      var body := JoinSlash(Normalize(Fields(p), [], rooted));
      if rooted then "/" + body else if body == [] then "." else body
  }

  /** Elements that are not "", "." or "..": what Clean keeps untouched. */
  predicate Plain(e: string) {
    e != "" && e != "." && e != ".." && '/' !in e
  }

  /** filepath.Join(a, b) (and path.Join(a, b)): the first non-empty element
      onwards, joined with '/' and cleaned; "" when both are empty. */
  function Join(a: string, b: string): string {
    if a != [] then Clean(a + "/" + b) else if b != [] then Clean(b) else ""
  }

  /** filepath.Join(a, b, c). */
  function Join3(a: string, b: string, c: string): string {
    if a != [] then Clean(a + "/" + b + "/" + c)
    else if b != [] then Clean(b + "/" + c)
    else if c != [] then Clean(c)
    else ""
  }

  /** filepath.Split: the cut of `p` after its last '/', into a directory part
      that is empty or ends in '/' and a last element without '/'. */
  function Split(p: string): (r: (string, string))
    ensures r.0 + r.1 == p
    ensures '/' !in r.1
    ensures r.0 == [] || r.0[|r.0| - 1] == '/'
    decreases |p|
  {
    if p == [] then ([], [])
    else if p[|p| - 1] == '/' then (p, [])
    else
      var (d, f) := Split(p[..|p| - 1]);
      assert p == p[..|p| - 1] + [p[|p| - 1]];
      (d, f + [p[|p| - 1]])
  }

  /** filepath.Dir: the cleaned directory part. */
  function Dir(p: string): string {
    Clean(Split(p).0)
  }

  /** The words filepath.Rel walks over in a cleaned path; a base of "." is
      treated as the empty path, a target of "." is the word ".". */
  function RelWords(c: string, isBase: bool): seq<string>
    requires c != []
  {
    if c == "." && isBase then []
    else if c == "/" then []
    else if c[0] == '/' then Fields(c[1..])
    else Fields(c)
  }

  /** The length of the longest common leading run of words. */
  function CommonPrefixLen(b: seq<string>, t: seq<string>): (n: nat)
    ensures n <= |b| && n <= |t|
    ensures b[..n] == t[..n]
    ensures n == |b| || n == |t| || b[n] != t[n]
    decreases |b|
  {
    if b != [] && t != [] && b[0] == t[0] then
      var n := CommonPrefixLen(b[1..], t[1..]);
      assert b[..n + 1] == [b[0]] + b[1..][..n];
      assert t[..n + 1] == [t[0]] + t[1..][..n];
      n + 1
    else 0
  }

  function RelError(basepath: string, targpath: string): Error {
    Message("Rel: can't make " + targpath + " relative to " + basepath)
  }

  /** filepath.Rel: a path that names `targpath` when joined to `basepath`. */
  function Rel(basepath: string, targpath: string): Result<string> {
    var base := Clean(basepath);
    var targ := Clean(targpath);
    if targ == base then Ok(".")
    else if (base[0] == '/') != (targ[0] == '/') then Err(RelError(basepath, targpath))
    else
      var bw := RelWords(base, true);
      var tw := RelWords(targ, false);
      var n := CommonPrefixLen(bw, tw);
      var bs := bw[n..];
      var ts := tw[n..];
      if bs != [] && bs[0] == ".." then Err(RelError(basepath, targpath))
      else if bs != [] then Ok(JoinFields(seq(|bs|, _ => "..") + ts))
      else Ok(JoinSlash(ts))
  }

  /** `key, _ := filepath.Rel(base, targ)`: an error leaves the key empty. */
  function RelOrEmpty(basepath: string, targpath: string): string {
    match Rel(basepath, targpath)
    case Ok(k) => k
    case Err(_) => ""
  }

  // ---- cleaning paths made of plain elements ----

  /** Fields split at every '/', so a '/' between two strings splits there. */
  lemma {:induction false} FieldsConcat(a: string, b: string)
    ensures Fields(a + "/" + b) == Fields(a) + Fields(b)
    decreases |a|
  {
    if a == [] {
      assert (a + "/" + b)[1..] == b;
    } else {
      assert (a + "/" + b)[1..] == a[1..] + "/" + b;
      FieldsConcat(a[1..], b);
    }
  }

  /** A string without '/' is a single field. */
  lemma {:induction false} FieldsOfWord(w: string)
    requires '/' !in w
    ensures Fields(w) == [w]
    decreases |w|
  {
    if w != [] {
      FieldsOfWord(w[1..]);
      assert w == [w[0]] + w[1..];
    }
  }

  /** Splitting elements joined with '/' gives them back. */
  lemma {:induction false} FieldsOfJoin(segs: seq<string>)
    requires |segs| >= 1 && forall i :: 0 <= i < |segs| ==> '/' !in segs[i]
    ensures Fields(JoinFields(segs)) == segs
    decreases |segs|
  {
    FieldsOfWord(segs[0]);
    if |segs| > 1 {
      FieldsConcat(segs[0], JoinFields(segs[1..]));
      FieldsOfJoin(segs[1..]);
      assert segs == [segs[0]] + segs[1..];
    }
  }

  /** A relative directory written as elements each followed by '/':
      "nested/deep/" for ["nested", "deep"], "" for none. */
  function DirOf(segs: seq<string>): (d: string)
    ensures d == [] || d[|d| - 1] == '/'
    decreases |segs|
  {
    if segs == [] then "" else segs[0] + "/" + DirOf(segs[1..])
  }

  lemma {:induction false} FieldsOfDir(segs: seq<string>)
    requires forall i :: 0 <= i < |segs| ==> '/' !in segs[i]
    ensures Fields(DirOf(segs)) == segs + [""]
    decreases |segs|
  {
    if segs != [] {
      FieldsConcat(segs[0], DirOf(segs[1..]));
      FieldsOfWord(segs[0]);
      FieldsOfDir(segs[1..]);
      assert segs == [segs[0]] + segs[1..];
    }
  }

  /** The non-empty elements, in order. */
  function Words(segs: seq<string>): seq<string>
    decreases |segs|
  {
    if segs == [] then [] else (if segs[0] == "" then [] else [segs[0]]) + Words(segs[1..])
  }

  lemma {:induction false} WordsAppend(a: seq<string>, b: seq<string>)
    ensures Words(a + b) == Words(a) + Words(b)
    decreases |a|
  {
    if a != [] {
      assert (a + b)[1..] == a[1..] + b;
      WordsAppend(a[1..], b);
    } else {
      assert a + b == b;
    }
  }

  lemma {:induction false} WordsOfPlain(segs: seq<string>)
    requires forall i :: 0 <= i < |segs| ==> Plain(segs[i])
    ensures Words(segs) == segs
    decreases |segs|
  {
    if segs != [] {
      WordsOfPlain(segs[1..]);
    }
  }

  /** Without "." and "..", cleaning only drops the empty elements. */
  lemma {:induction false} NormalizeWords(segs: seq<string>, out: seq<string>, rooted: bool)
    requires forall i :: 0 <= i < |segs| ==> segs[i] == "" || Plain(segs[i])
    ensures Normalize(segs, out, rooted) == out + Words(segs)
    decreases |segs|
  {
    if segs != [] {
      var e := segs[0];
      var tail := segs[1..];
      forall i | 0 <= i < |tail|
        ensures tail[i] == "" || Plain(tail[i])
      {
        assert tail[i] == segs[i + 1];
      }
      if e == "" {
        NormalizeSkip(segs, out, rooted);
        NormalizeWords(tail, out, rooted);
      } else {
        NormalizeKeep(segs, out, rooted);
        NormalizeWords(tail, out + [e], rooted);
        assert out + [e] + Words(tail) == out + ([e] + Words(tail));
      }
    }
  }

  /** An empty element is dropped, by Clean and by Words alike. */
  lemma NormalizeSkip(segs: seq<string>, out: seq<string>, rooted: bool)
    requires segs != [] && segs[0] == ""
    ensures Normalize(segs, out, rooted) == Normalize(segs[1..], out, rooted)
    ensures Words(segs) == Words(segs[1..])
  {
  }

  /** A plain element is kept, by Clean and by Words alike. */
  lemma NormalizeKeep(segs: seq<string>, out: seq<string>, rooted: bool)
    requires segs != [] && Plain(segs[0])
    ensures Normalize(segs, out, rooted) == Normalize(segs[1..], out + [segs[0]], rooted)
    ensures Words(segs) == [segs[0]] + Words(segs[1..])
  {
  }

  /** A leading '/' adds one empty field in front. */
  lemma FieldsRooted(s: string)
    ensures Fields("/" + s) == [""] + Fields(s)
  {
    assert ("/" + s)[1..] == s;
  }

  /** Regrouping a rooted path of two parts. */
  lemma RootedRegroup(a: string, b: string)
    ensures "/" + a + "/" + b == "/" + (a + "/" + b)
  {
  }

  /** The fields of an absolute path of plain elements followed by a
      directory of plain elements. */
  lemma FieldsOfPlainJoin(base: seq<string>, dir: seq<string>)
    requires |base| >= 1
    requires forall i :: 0 <= i < |base| ==> Plain(base[i])
    requires forall i :: 0 <= i < |dir| ==> Plain(dir[i])
    ensures Fields("/" + JoinFields(base) + "/" + DirOf(dir)) == [""] + base + dir + [""]
  {
    var j := JoinFields(base);
    var d := DirOf(dir);
    assert Fields(j + "/" + d) == base + (dir + [""]) by {
      FieldsOfJoin(base);
      FieldsOfDir(dir);
      FieldsConcat(j, d);
    }
    RootedRegroup(j, d);
    FieldsRooted(j + "/" + d);
    SegsRegroup(base, dir);
  }

  lemma SegsRegroup(base: seq<string>, dir: seq<string>)
    ensures [""] + (base + (dir + [""])) == [""] + base + dir + [""]
  {
  }

  lemma WordsOfPlainJoin(base: seq<string>, dir: seq<string>)
    requires forall i :: 0 <= i < |base| ==> Plain(base[i])
    requires forall i :: 0 <= i < |dir| ==> Plain(dir[i])
    ensures Words([""] + base + dir + [""]) == base + dir
  {
    WordsOfPlain(base);
    WordsOfPlain(dir);
    WordsAroundEmpty(base, dir);
  }

  lemma WordsAroundEmpty(base: seq<string>, dir: seq<string>)
    ensures Words([""] + base + dir + [""]) == Words(base) + Words(dir)
  {
    var m := base + dir;
    assert [""] + base + dir + [""] == [""] + (m + [""]);
    WordsAfterEmpty(m + [""]);
    WordsBeforeEmpty(m);
    WordsAppend(base, dir);
  }

  lemma WordsAfterEmpty(segs: seq<string>)
    ensures Words([""] + segs) == Words(segs)
  {
    assert ([""] + segs)[1..] == segs;
  }

  lemma WordsBeforeEmpty(segs: seq<string>)
    ensures Words(segs + [""]) == Words(segs)
  {
    WordsAppend(segs, [""]);
    assert Words([""]) == [];
  }

  lemma PlainOrEmptyAround(base: seq<string>, dir: seq<string>)
    requires forall i :: 0 <= i < |base| ==> Plain(base[i])
    requires forall i :: 0 <= i < |dir| ==> Plain(dir[i])
    ensures forall i :: 0 <= i < |[""] + base + dir + [""]| ==>
      ([""] + base + dir + [""])[i] == "" || Plain(([""] + base + dir + [""])[i])
  {
    var segs := [""] + base + dir + [""];
    forall i | 0 <= i < |segs|
      ensures segs[i] == "" || Plain(segs[i])
    {
      if 1 <= i <= |base| {
        assert segs[i] == base[i - 1];
      } else if |base| < i < |segs| - 1 {
        assert segs[i] == dir[i - 1 - |base|];
      }
    }
  }

  /** Cleaning a rooted path keeps the root and joins what normalising its
      fields leaves. */
  lemma CleanRooted(p: string)
    requires p != [] && p[0] == '/'
    ensures Clean(p) == "/" + JoinSlash(Normalize(Fields(p), [], true))
  {
  }

  /** Joining an absolute path of plain elements with a directory of plain
      elements cleans to the absolute path of all those elements. */
  lemma CleanPlainJoin(base: seq<string>, dir: seq<string>)
    requires |base| >= 1
    requires forall i :: 0 <= i < |base| ==> Plain(base[i])
    requires forall i :: 0 <= i < |dir| ==> Plain(dir[i])
    ensures Clean("/" + JoinFields(base) + "/" + DirOf(dir)) == "/" + JoinFields(base + dir)
  {
    var p := "/" + JoinFields(base) + "/" + DirOf(dir);
    var segs := [""] + base + dir + [""];
    CleanRooted(p);
    FieldsOfPlainJoin(base, dir);
    PlainOrEmptyAround(base, dir);
    NormalizeWords(segs, [], true);
    WordsOfPlainJoin(base, dir);
    assert Normalize(Fields(p), [], true) == base + dir;
  }

  /** Split cuts after the directory part when what follows has no '/'. */
  lemma {:induction false} SplitAfterDir(d: string, leaf: string)
    requires d == [] || d[|d| - 1] == '/'
    requires '/' !in leaf
    ensures Split(d + leaf) == (d, leaf)
    decreases |leaf|
  {
    if leaf == [] {
      assert d + leaf == d;
    } else {
      var front := leaf[..|leaf| - 1];
      SplitAfterDir(d, front);
      assert (d + leaf)[..|d + leaf| - 1] == d + front;
      assert front + [leaf[|leaf| - 1]] == leaf;
    }
  }

  // ---- relative paths below a directory ----

  /** Joining two non-empty runs of elements puts one '/' between them. */
  lemma {:induction false} JoinFieldsAppend(a: seq<string>, b: seq<string>)
    requires |a| >= 1 && |b| >= 1
    ensures JoinFields(a + b) == JoinFields(a) + "/" + JoinFields(b)
    decreases |a|
  {
    if |a| > 1 {
      JoinFieldsAppend(a[1..], b);
      assert (a + b)[1..] == a[1..] + b;
    } else {
      assert (a + b)[1..] == b;
    }
  }

  lemma {:induction false} JoinFieldsNonEmpty(segs: seq<string>)
    requires |segs| >= 1 && segs[0] != ""
    ensures JoinFields(segs) != ""
  {
  }

  lemma FieldsOfAbsolute(segs: seq<string>)
    requires |segs| >= 1 && forall i :: 0 <= i < |segs| ==> '/' !in segs[i]
    ensures Fields("/" + JoinFields(segs)) == [""] + segs
  {
    FieldsRooted(JoinFields(segs));
    FieldsOfJoin(segs);
  }

  /** An absolute path of plain elements is already clean. */
  lemma CleanAbsolutePlain(segs: seq<string>)
    requires |segs| >= 1
    requires forall i :: 0 <= i < |segs| ==> Plain(segs[i])
    ensures Clean("/" + JoinFields(segs)) == "/" + JoinFields(segs)
  {
    var p := "/" + JoinFields(segs);
    CleanRooted(p);
    FieldsOfAbsolute(segs);
    assert ([""] + segs)[1..] == segs;
    assert Normalize([""] + segs, [], true) == Normalize(segs, [], true);
    NormalizeWords(segs, [], true);
    WordsOfPlain(segs);
    assert [] + segs == segs;
    var n := Normalize(Fields(p), [], true);
    assert n == segs;
    assert JoinSlash(n) == JoinFields(segs);
  }

  /** One more element at the end is joined with one more '/'. */
  lemma JoinFieldsSnoc(segs: seq<string>, x: string)
    requires |segs| >= 1
    ensures JoinFields(segs + [x]) == JoinFields(segs) + "/" + x
  {
    JoinFieldsAppend(segs, [x]);
  }

  /** Joining a name onto a directory gives an absolute path of plain
      elements as it is written. */
  lemma JoinOntoAbsolute(dir: string, name: string, segs: seq<string>)
    requires |segs| >= 1
    requires forall i :: 0 <= i < |segs| ==> Plain(segs[i])
    requires dir != [] && dir + "/" + name == "/" + JoinFields(segs)
    ensures Join(dir, name) == "/" + JoinFields(segs)
  {
    CleanAbsolutePlain(segs);
  }

  lemma PlainAppend(a: seq<string>, b: seq<string>)
    requires forall i :: 0 <= i < |a| ==> Plain(a[i])
    requires forall i :: 0 <= i < |b| ==> Plain(b[i])
    ensures forall i :: 0 <= i < |a + b| ==> Plain((a + b)[i])
  {
    forall i | 0 <= i < |a + b|
      ensures Plain((a + b)[i])
    {
      if i < |a| {
        assert (a + b)[i] == a[i];
      } else {
        assert (a + b)[i] == b[i - |a|];
      }
    }
  }

  /** Rel reads an absolute path of plain elements as those elements. */
  lemma RelWordsAbsolute(segs: seq<string>, isBase: bool)
    requires |segs| >= 1
    requires forall i :: 0 <= i < |segs| ==> Plain(segs[i])
    ensures Clean("/" + JoinFields(segs)) == "/" + JoinFields(segs)
    ensures RelWords("/" + JoinFields(segs), isBase) == segs
  {
    CleanAbsolutePlain(segs);
    JoinFieldsNonEmpty(segs);
    var c := "/" + JoinFields(segs);
    assert c[1..] == JoinFields(segs);
    FieldsOfJoin(segs);
  }

  lemma CommonPrefixOfExtension(a: seq<string>, b: seq<string>)
    ensures CommonPrefixLen(a, a + b) == |a|
  {
    assert (a + b)[..|a|] == a;
  }

  /** The path of an entry below an absolute directory of plain elements,
      made relative to that directory, is the run of elements below it. */
  lemma RelBelow(base: seq<string>, rel: seq<string>)
    requires |base| >= 1 && |rel| >= 1
    requires forall i :: 0 <= i < |base| ==> Plain(base[i])
    requires forall i :: 0 <= i < |rel| ==> Plain(rel[i])
    ensures Rel("/" + JoinFields(base), "/" + JoinFields(base + rel)) == Ok(JoinFields(rel))
  {
    var all := base + rel;
    PlainAppend(base, rel);
    RelWordsAbsolute(base, true);
    RelWordsAbsolute(all, false);
    JoinFieldsAppend(base, rel);
    JoinFieldsNonEmpty(rel);
    CommonPrefixOfExtension(base, rel);
    assert all[|base|..] == rel;
    assert |"/" + JoinFields(all)| > |"/" + JoinFields(base)|;
  }
}
