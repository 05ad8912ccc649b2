/** The hidden-resource markers of eos/utils.go: EOS keeps the versions of a
    file in a ".sys.v#." folder and writes uploads through ".sys.a#" atomic
    files. Both tests look for the marker anywhere in the path. */
module EosUtils {
  import opened Text

  const VersionMarker := ".sys.v#."
  const AtomicMarker := ".sys.a#"

  /** eos.IsVersionFolder. */
  predicate IsVersionFolder(path: string) {
    Contains(path, VersionMarker)
  }

  /** eos.IsAtomicFile. */
  predicate IsAtomicFile(path: string) {
    Contains(path, AtomicMarker)
  }

  /** A path is a version folder exactly when the marker occurs at some index. */
  lemma IsVersionFolderIff(path: string)
    ensures IsVersionFolder(path) <==> exists i :: OccursAt(path, VersionMarker, i)
  {
    ContainsIffOccurs(path, VersionMarker);
  }

  /** A path is an atomic file exactly when the marker occurs at some index. */
  lemma IsAtomicFileIff(path: string)
    ensures IsAtomicFile(path) <==> exists i :: OccursAt(path, AtomicMarker, i)
  {
    ContainsIffOccurs(path, AtomicMarker);
  }

  /** Both tests look at the whole string: a marker in any part of it, a parent
      directory included, survives any text added around it. */
  lemma MarkersSurviveExtension(a: string, path: string, b: string)
    ensures IsVersionFolder(path) ==> IsVersionFolder(a + path + b)
    ensures IsAtomicFile(path) ==> IsAtomicFile(a + path + b)
  {
    if IsVersionFolder(path) {
      ContainsExtended(a, path, b, VersionMarker);
    }
    if IsAtomicFile(path) {
      ContainsExtended(a, path, b, AtomicMarker);
    }
  }

  /** Everything below a version folder is reported as a version folder too. */
  lemma VersionFolderParent(dir: string, name: string)
    requires IsVersionFolder(dir)
    ensures IsVersionFolder(dir + "/" + name)
  {
    MarkersSurviveExtension([], dir, "/" + name);
    assert [] + dir + ("/" + name) == dir + "/" + name;
  }

  /** Both markers contain '#', so a path without '#' carries neither. */
  lemma NoHashNoMarker(path: string)
    requires '#' !in path
    ensures !IsVersionFolder(path) && !IsAtomicFile(path)
  {
    assert VersionMarker[6] == '#';
    ContainsNeedsChar(path, VersionMarker, '#');
    assert AtomicMarker[6] == '#';
    ContainsNeedsChar(path, AtomicMarker, '#');
  }

  /** A path escaped for the HTTP service is never taken for a hidden resource. */
  lemma EscapedNeverHidden(path: string)
    ensures !IsVersionFolder(EscapeHash(path)) && !IsAtomicFile(EscapeHash(path))
  {
    NoHashNoMarker(EscapeHash(path));
  }
}
