/** eoss3.go: the first, stand-alone S3 backend for EOS. Every bucket is a
    directory right below one mount directory, and every request to EOS is
    made with the one identity of the configuration. */
module LegacyBackend {
  import opened Common
  import opened Text
  import opened GoBuiltins
  import opened FilePath
  import opened Md
  import EosUtils
  import Backend
  import Http
  import LegacyHttp

  /** The configuration. Validate is the only code that changes it, and it
      changes only the mount directory. */
  class Config {
    const grpcUrl: string
    const httpUrl: string
    const authkey: string
    var mountDir: string
    const uid: int
    const gid: int
    const username: string

    constructor (grpcUrl: string, httpUrl: string, authkey: string, mountDir: string,
                 uid: int, gid: int, username: string)
      ensures this.grpcUrl == grpcUrl && this.httpUrl == httpUrl && this.authkey == authkey
      ensures this.mountDir == mountDir && this.uid == uid && this.gid == gid
      ensures this.username == username
    {
      this.grpcUrl := grpcUrl;
      this.httpUrl := httpUrl;
      this.authkey := authkey;
      this.mountDir := mountDir;
      this.uid := uid;
      this.gid := gid;
      this.username := username;
    }

    /** The first required setting that is missing, in the order Validate
        checks them. */
    function Missing(): (r: Status)
      ensures r.None? <==> grpcUrl != "" && httpUrl != "" && authkey != "" && username != ""
      ensures grpcUrl == "" ==> r == Some(Message("grpc_url not provided"))
      ensures grpcUrl != "" && httpUrl == "" ==> r == Some(Message("http_url not provided"))
      ensures grpcUrl != "" && httpUrl != "" && authkey == "" ==> r == Some(Message("authkey not provided"))
      ensures grpcUrl != "" && httpUrl != "" && authkey != "" && username == "" ==>
        r == Some(Message("username not provided"))
    {
      if grpcUrl == "" then Some(Message("grpc_url not provided"))
      else if httpUrl == "" then Some(Message("http_url not provided"))
      else if authkey == "" then Some(Message("authkey not provided"))
      else if username == "" then Some(Message("username not provided"))
      else None
    }

    /** Config.Validate: a configuration that passes has a mount directory,
        the root when none was given; one that fails is left as it was. */
    method Validate() returns (err: Status)
      modifies this
      ensures err == Missing()
      ensures mountDir == (if err.None? && old(mountDir) == "" then "/" else old(mountDir))
      ensures err.None? ==> mountDir != ""
    {
      err := Missing();
      if err.None? && mountDir == "" {
        mountDir := "/";
      }
    }
  }

  /** The settings of the HTTP client that New derives from the configuration. */
  function HttpConfigOf(cfg: Config): LegacyHttp.HTTPConfig {
    LegacyHttp.HTTPConfig(cfg.httpUrl, cfg.authkey, cfg.uid, cfg.gid, cfg.username)
  }

  /** A configuration that passed Validate also passes the HTTP client's own
      check, so New never fails there. */
  lemma HttpConfigValid(cfg: Config)
    requires cfg.Missing().None?
    ensures LegacyHttp.Validate(HttpConfigOf(cfg)).None?
  {
  }

  /** isVersionFolder: a name that starts with the version-folder marker. */
  predicate IsVersionName(name: string) {
    HasPrefix(name, EosUtils.VersionMarker)
  }

  /** The legacy test is narrower than eos.IsVersionFolder: a name that starts
      with the marker contains it. */
  lemma VersionNameIsVersionFolder(name: string)
    requires IsVersionName(name)
    ensures EosUtils.IsVersionFolder(name)
  {
  }

  /** ... but not conversely: the marker later in the name does not count. */
  lemma VersionNameNarrower(c: char)
    ensures var name := [c] + EosUtils.VersionMarker;
      !IsVersionName(name) && EosUtils.IsVersionFolder(name)
  {
    var name := [c] + EosUtils.VersionMarker;
    assert name[1..] == EosUtils.VersionMarker;
    assert HasPrefix(name[1..], EosUtils.VersionMarker);
    if c == '.' {
      assert name[1] != EosUtils.VersionMarker[1];
    } else {
      assert name[0] != EosUtils.VersionMarker[0];
    }
  }

  /** A bucket directory below a mount directory of plain elements is the
      mount directory followed by the bucket name. */
  lemma BucketPathBelowMount(base: seq<string>, bucket: string)
    requires |base| >= 1 && forall i :: 0 <= i < |base| ==> Plain(base[i])
    requires Plain(bucket)
    ensures Join("/" + JoinFields(base), bucket) == "/" + JoinFields(base + [bucket])
  {
    var all := base + [bucket];
    var mount := "/" + JoinFields(base);
    JoinFieldsSnoc(base, bucket);
    RootedRegroup(JoinFields(base), bucket);
    PlainAppend(base, [bucket]);
    JoinOntoAbsolute(mount, bucket, all);
  }

  // ---- the bucket listing ----

  /** The container metadata of a listing's entries, in order. A file, and an
      entry without container metadata, does not count. */
  function Dirs(items: seq<MD>): (r: seq<ContainerMd>)
    ensures |r| <= |items|
    decreases |items|
  {
    if items == [] then []
    else
      var last := items[|items| - 1];
      Dirs(items[..|items| - 1]) + (if last.typ == File || last.cmd.None? then [] else [last.cmd.value])
  }

  /** Every container of a listing is there, and nothing else. */
  lemma DirsExact(items: seq<MD>, c: ContainerMd)
    ensures c in Dirs(items) <==> exists i :: 0 <= i < |items| && items[i].typ == Container && items[i].cmd == Some(c)
  {
    if c in Dirs(items) {
      DirsFrom(items, c);
    }
    if exists i :: 0 <= i < |items| && items[i].typ == Container && items[i].cmd == Some(c) {
      var i :| 0 <= i < |items| && items[i].typ == Container && items[i].cmd == Some(c);
      DirsHas(items, i);
    }
  }

  /** A container record that is kept comes from some entry. */
  lemma {:induction false} DirsFrom(items: seq<MD>, c: ContainerMd)
    requires c in Dirs(items)
    ensures exists i :: 0 <= i < |items| && items[i].typ == Container && items[i].cmd == Some(c)
    decreases |items|
  {
    var front := items[..|items| - 1];
    if c in Dirs(front) {
      DirsFrom(front, c);
      var i :| 0 <= i < |front| && front[i].typ == Container && front[i].cmd == Some(c);
      assert items[i] == front[i];
    } else {
      assert items[|items| - 1].cmd == Some(c);
    }
  }

  /** The record of every container entry is kept. */
  lemma {:induction false} DirsHas(items: seq<MD>, i: nat)
    requires i < |items| && items[i].typ == Container && items[i].cmd.Some?
    ensures items[i].cmd.value in Dirs(items)
    decreases |items|
  {
    var front := items[..|items| - 1];
    if i < |front| {
      assert front[i] == items[i];
      DirsHas(front, i);
    }
  }

  /** The containers of two listings one after the other. */
  lemma {:induction false} DirsAppend(a: seq<MD>, b: seq<MD>)
    ensures Dirs(a + b) == Dirs(a) + Dirs(b)
    decreases |b|
  {
    if b == [] {
      assert a + b == a;
    } else {
      var front := b[..|b| - 1];
      DirsAppend(a, front);
      assert (a + b)[..|a + b| - 1] == a + front;
    }
  }

  /** The bucket entries of a run of containers: those whose name has the
      requested prefix and is not a version folder, with their creation time. */
  function Buckets(dirs: seq<ContainerMd>, prefix: string): (r: seq<Backend.Entry>)
    ensures |r| <= |dirs|
    decreases |dirs|
  {
    if dirs == [] then []
    else
      var c := dirs[|dirs| - 1];
      Buckets(dirs[..|dirs| - 1], prefix)
        + (if HasPrefix(c.name, prefix) && !IsVersionName(c.name) then [Backend.Entry(c.name, c.ctime)] else [])
  }

  /** A container that passes the bucket filter. */
  predicate ListsAs(c: ContainerMd, prefix: string, e: Backend.Entry) {
    HasPrefix(c.name, prefix) && !IsVersionName(c.name) && e == Backend.Entry(c.name, c.ctime)
  }

  /** An entry is listed exactly when some container with its name and
      creation time passes the filter. */
  lemma BucketsExact(dirs: seq<ContainerMd>, prefix: string, e: Backend.Entry)
    ensures e in Buckets(dirs, prefix) <==> exists k :: 0 <= k < |dirs| && ListsAs(dirs[k], prefix, e)
  {
    if e in Buckets(dirs, prefix) {
      BucketsFrom(dirs, prefix, e);
    }
    if exists k :: 0 <= k < |dirs| && ListsAs(dirs[k], prefix, e) {
      var k :| 0 <= k < |dirs| && ListsAs(dirs[k], prefix, e);
      BucketsHas(dirs, prefix, k);
    }
  }

  /** A listed entry comes from some container. */
  lemma {:induction false} BucketsFrom(dirs: seq<ContainerMd>, prefix: string, e: Backend.Entry)
    requires e in Buckets(dirs, prefix)
    ensures exists k :: 0 <= k < |dirs| && ListsAs(dirs[k], prefix, e)
    decreases |dirs|
  {
    var front := dirs[..|dirs| - 1];
    if e in Buckets(front, prefix) {
      BucketsFrom(front, prefix, e);
      var k :| 0 <= k < |front| && ListsAs(front[k], prefix, e);
      assert dirs[k] == front[k];
    } else {
      assert ListsAs(dirs[|dirs| - 1], prefix, e);
    }
  }

  /** Every container that passes the filter is listed. */
  lemma {:induction false} BucketsHas(dirs: seq<ContainerMd>, prefix: string, k: nat)
    requires k < |dirs| && HasPrefix(dirs[k].name, prefix) && !IsVersionName(dirs[k].name)
    ensures Backend.Entry(dirs[k].name, dirs[k].ctime) in Buckets(dirs, prefix)
    decreases |dirs|
  {
    var front := dirs[..|dirs| - 1];
    if k < |front| {
      assert front[k] == dirs[k];
      BucketsHas(front, prefix, k);
    }
  }

  /** The filter works entry by entry. */
  lemma BucketsSnoc(dirs: seq<ContainerMd>, c: ContainerMd, prefix: string)
    ensures Buckets(dirs + [c], prefix) == Buckets(dirs, prefix)
      + (if HasPrefix(c.name, prefix) && !IsVersionName(c.name) then [Backend.Entry(c.name, c.ctime)] else [])
  {
    assert (dirs + [c])[..|dirs|] == dirs;
  }

  /** A sequence without its first element. */
  function Rest<T>(s: seq<T>): (r: seq<T>)
    ensures |r| == if s == [] then 0 else |s| - 1
  {
    if s == [] then [] else s[1..]
  }

  /** The buckets a listing of the mount directory shows: the first container
      is the mount directory itself and is skipped. */
  function BucketsOf(items: seq<MD>, prefix: string): seq<Backend.Entry> {
    Buckets(Rest(Dirs(items)), prefix)
  }

  /** When the listing starts with the mount directory's own entry, the
      buckets are the filtered containers after it: files and entries without
      metadata before it do not shift the count. */
  lemma BucketsAfterOwnEntry(lead: seq<MD>, own: ContainerMd, items: seq<MD>, prefix: string)
    requires Dirs(lead) == []
    ensures BucketsOf(lead + [MD(Container, Some(own), None)] + items, prefix) == Buckets(Dirs(items), prefix)
  {
    var m := MD(Container, Some(own), None);
    DirsAppend(lead, [m]);
    DirsAppend(lead + [m], items);
    assert Dirs([m]) == Dirs([]) + [own];
    assert Dirs(lead + [m] + items) == [own] + Dirs(items);
  }

  /** One more entry read from the listing adds its container metadata, if
      it has any. */
  lemma DirsStep(items: seq<MD>, k: nat)
    requires k < |items|
    ensures var m := items[k];
      Dirs(items[..k + 1]) == Dirs(items[..k]) + (if m.typ == File || m.cmd.None? then [] else [m.cmd.value])
  {
    assert items[..k + 1][..k] == items[..k];
  }

  /** One more container seen by the bucket loop: the first is skipped, any
      later one adds its entry when it passes the filter. */
  lemma BucketsAfter(d: seq<ContainerMd>, c: ContainerMd, entries: seq<Backend.Entry>, prefix: string)
    requires entries == Buckets(Rest(d), prefix)
    ensures Buckets(Rest(d + [c]), prefix) ==
      if d == [] then entries
      else entries + (if HasPrefix(c.name, prefix) && !IsVersionName(c.name) then [Backend.Entry(c.name, c.ctime)] else [])
  {
    RestSnoc(d, c);
    if d != [] {
      BucketsSnoc(Rest(d), c, prefix);
    }
  }

  lemma RestSnoc<T>(s: seq<T>, x: T)
    ensures Rest(s + [x]) == if s == [] then [] else Rest(s) + [x]
  {
    if s != [] {
      assert (s + [x])[1..] == s[1..] + [x];
    }
  }

  /** The listing of a bucket: one object per file entry with metadata, keyed
      by its path below the bucket directory. */
  function FileObject(bucketDir: string, f: FileMd): Backend.Object {
    Backend.Object(RelOrEmpty(bucketDir, f.path), Int64(Uint64(f.size)), Some(f.etag),
                   Some(FormatNat(f.uid)), f.mtime)
  }

  /** A file is described as the newer backend describes it. */
  lemma FileObjectAgrees(bucketDir: string, md: MD)
    requires md.typ == File && md.fmd.Some?
    ensures Backend.MdToObject(bucketDir, md) == Ok(FileObject(bucketDir, md.fmd.value))
  {
  }

  /** The file metadata of a listing's entries, in order. A container, and an
      entry without file metadata, does not count. */
  function FileMds(items: seq<MD>): (r: seq<FileMd>)
    ensures |r| <= |items|
    decreases |items|
  {
    if items == [] then []
    else
      var last := items[|items| - 1];
      FileMds(items[..|items| - 1]) + (if last.typ == Container || last.fmd.None? then [] else [last.fmd.value])
  }

  /** Every file of a listing is there, and nothing else. */
  lemma FileMdsExact(items: seq<MD>, f: FileMd)
    ensures f in FileMds(items) <==> exists i :: 0 <= i < |items| && items[i].typ == File && items[i].fmd == Some(f)
  {
    if f in FileMds(items) {
      FileMdsFrom(items, f);
    }
    if exists i :: 0 <= i < |items| && items[i].typ == File && items[i].fmd == Some(f) {
      var i :| 0 <= i < |items| && items[i].typ == File && items[i].fmd == Some(f);
      FileMdsHas(items, i);
    }
  }

  /** A file record that is kept comes from some entry. */
  lemma {:induction false} FileMdsFrom(items: seq<MD>, f: FileMd)
    requires f in FileMds(items)
    ensures exists i :: 0 <= i < |items| && items[i].typ == File && items[i].fmd == Some(f)
    decreases |items|
  {
    var front := items[..|items| - 1];
    if f in FileMds(front) {
      FileMdsFrom(front, f);
      var i :| 0 <= i < |front| && front[i].typ == File && front[i].fmd == Some(f);
      assert items[i] == front[i];
    } else {
      assert items[|items| - 1].fmd == Some(f);
    }
  }

  /** The record of every file entry is kept. */
  lemma {:induction false} FileMdsHas(items: seq<MD>, i: nat)
    requires i < |items| && items[i].typ == File && items[i].fmd.Some?
    ensures items[i].fmd.value in FileMds(items)
    decreases |items|
  {
    var front := items[..|items| - 1];
    if i < |front| {
      assert front[i] == items[i];
      FileMdsHas(front, i);
    }
  }

  /** The objects that files describe, one for one. */
  function Objects(bucketDir: string, fs: seq<FileMd>): (r: seq<Backend.Object>)
    ensures |r| == |fs|
    ensures forall k :: 0 <= k < |r| ==> r[k] == FileObject(bucketDir, fs[k])
  {
    seq(|fs|, k requires 0 <= k < |fs| => FileObject(bucketDir, fs[k]))
  }

  /** The objects of a bucket listing: containers and entries without file
      metadata are skipped, at every depth. */
  function Files(bucketDir: string, items: seq<MD>): seq<Backend.Object> {
    Objects(bucketDir, FileMds(items))
  }

  /** An object is listed exactly when some file entry describes it. */
  lemma FilesExact(bucketDir: string, items: seq<MD>, o: Backend.Object)
    ensures o in Files(bucketDir, items) <==>
      exists f :: f in FileMds(items) && o == FileObject(bucketDir, f)
  {
    var fs := FileMds(items);
    if o in Files(bucketDir, items) {
      var k :| 0 <= k < |fs| && Files(bucketDir, items)[k] == o;
      assert fs[k] in fs;
    }
  }

  /** A file stored below a bucket directory of plain elements is listed under
      its path below that directory. */
  lemma FileKeyBelow(base: seq<string>, rel: seq<string>, f: FileMd)
    requires |base| >= 1 && |rel| >= 1
    requires forall i :: 0 <= i < |base| ==> Plain(base[i])
    requires forall i :: 0 <= i < |rel| ==> Plain(rel[i])
    requires f.path == "/" + JoinFields(base + rel)
    ensures FileObject("/" + JoinFields(base), f).key == JoinFields(rel)
  {
    RelBelow(base, rel);
  }

  /** The key of a file listed in a bucket below a mount directory of plain
      elements is its path below the bucket's directory. */
  lemma ListedKeyBelowMount(base: seq<string>, bucket: string, rel: seq<string>, f: FileMd)
    requires |base| >= 1 && |rel| >= 1
    requires forall i :: 0 <= i < |base| ==> Plain(base[i])
    requires forall i :: 0 <= i < |rel| ==> Plain(rel[i])
    requires Plain(bucket)
    requires f.path == "/" + JoinFields(base + [bucket] + rel)
    ensures FileObject(Join("/" + JoinFields(base), bucket), f).key == JoinFields(rel)
  {
    BucketPathBelowMount(base, bucket);
    PlainAppend(base, [bucket]);
    FileKeyBelow(base + [bucket], rel, f);
  }

  /** The result of ListObjects: the bucket's name and its objects. */
  datatype ObjectList = ObjectList(name: string, contents: seq<Backend.Object>)

  /** The text of the error DeleteObject returns for a failed rm. */
  function RmErrorText(e: NsError): string {
    "got error (" + FormatInt(e.code) + "): " + e.msg
  }

  /** The error names the code and carries the server's message. */
  lemma RmErrorNamesCode(e: NsError)
    ensures Contains(RmErrorText(e), FormatInt(e.code))
    ensures Contains(RmErrorText(e), e.msg)
  {
    assert HasPrefix(FormatInt(e.code), FormatInt(e.code));
    ContainsExtended("got error (", FormatInt(e.code), "): " + e.msg, FormatInt(e.code));
    assert "got error (" + FormatInt(e.code) + ("): " + e.msg) == RmErrorText(e);
    assert HasPrefix(e.msg, e.msg);
    ContainsExtended("got error (" + FormatInt(e.code) + "): ", e.msg, "", e.msg);
    assert "got error (" + FormatInt(e.code) + "): " + e.msg + "" == RmErrorText(e);
  }

  /** The loop of ListBuckets over the entries of the listing: it counts the
      containers it meets and skips the first. */
  method FilterBuckets(items: seq<MD>, prefix: string) returns (entries: seq<Backend.Entry>)
    ensures entries == BucketsOf(items, prefix)
  {
    entries := [];
    var i := 0;
    var k := 0;
    ghost var dirs: seq<ContainerMd> := [];
    while k < |items|
      invariant k <= |items|
      invariant dirs == Dirs(items[..k])
      invariant i == |dirs|
      invariant entries == Buckets(Rest(dirs), prefix)
    {
      var m := items[k];
      DirsStep(items, k);
      if m.typ != File && m.cmd.Some? {
        var c := m.cmd.value;
        BucketsAfter(dirs, c, entries, prefix);
        dirs := dirs + [c];
        i := i + 1;
        if i != 1 {
          if HasPrefix(c.name, prefix) && !IsVersionName(c.name) {
            entries := entries + [Backend.Entry(c.name, c.ctime)];
          }
        }
      }
      k := k + 1;
    }
    assert items[..k] == items;
  }

  /** The loop of ListObjects over the entries of the listing. */
  method CollectFiles(bucketDir: string, items: seq<MD>) returns (contents: seq<Backend.Object>)
    ensures contents == Files(bucketDir, items)
  {
    contents := [];
    var k := 0;
    while k < |items|
      invariant k <= |items|
      invariant contents == Objects(bucketDir, FileMds(items[..k]))
    {
      var m := items[k];
      ghost var fs := FileMds(items[..k]);
      FileMdsStep(items, k);
      if m.typ != Container && m.fmd.Some? {
        ObjectsSnoc(bucketDir, fs, m.fmd.value);
        contents := contents + [FileObject(bucketDir, m.fmd.value)];
      } else {
        assert FileMds(items[..k + 1]) == fs;
      }
      k := k + 1;
    }
    assert items[..k] == items;
  }

  /** One more entry read from a bucket listing adds its file metadata, if
      it has any. */
  lemma FileMdsStep(items: seq<MD>, k: nat)
    requires k < |items|
    ensures var m := items[k];
      FileMds(items[..k + 1]) == FileMds(items[..k]) + (if m.typ == Container || m.fmd.None? then [] else [m.fmd.value])
  {
    assert items[..k + 1][..k] == items[..k];
  }

  /** One more file adds its object at the end. */
  lemma ObjectsSnoc(bucketDir: string, fs: seq<FileMd>, f: FileMd)
    ensures Objects(bucketDir, fs + [f]) == Objects(bucketDir, fs) + [FileObject(bucketDir, f)]
  {
    var o := Objects(bucketDir, fs + [f]);
    assert o[..|fs|] == Objects(bucketDir, fs);
    assert o == o[..|fs|] + [o[|fs|]];
  }

  // ---- the backend ----

  /** The mode of a new bucket directory, 0750. */
  const BucketMode := 0x1E8

  class EosBackend {
    const cfg: Config

    constructor (cfg: Config)
      ensures this.cfg == cfg
    {
      this.cfg := cfg;
    }

    /** The role and key of every request (newNsRequest and the find and
        stat requests): ids in the uint64 range are sent unchanged, a
        negative id wraps to 2^64 plus it. */
    function Identity(): (r: Role)
      ensures r.authkey == cfg.authkey
      ensures 0 <= cfg.uid < TwoTo64 ==> r.uid == cfg.uid
      ensures 0 <= cfg.gid < TwoTo64 ==> r.gid == cfg.gid
      ensures -TwoTo63 <= cfg.uid < 0 ==> r.uid == cfg.uid + TwoTo64
      ensures -TwoTo63 <= cfg.gid < 0 ==> r.gid == cfg.gid + TwoTo64
    {
      Role(Uint64(cfg.uid), Uint64(cfg.gid), cfg.authkey)
    }

    /** How CreateBucket and DeleteBucket read the answer of an Exec call:
        an error code other than 0 is an internal error. */
    function BucketVerdict(res: Result<NsResponse>): (r: Status)
      ensures res.Err? ==> r == Some(res.error)
      ensures res.Ok? ==> (r.None? <==> res.value.error.None? || res.value.error.value.code == 0)
      ensures res.Ok? && r.Some? ==> r == Some(Api(InternalError))
    {
      match res
      case Err(e) => Some(e)
      case Ok(ns) => if ns.error.Some? && ns.error.value.code != 0 then Some(Api(InternalError)) else None
    }

    /** CreateBucket: a recursive mkdir, mode 0750, of the bucket's directory
        below the mount directory. */
    function CreateBucket(bucket: string, exec: NsRequest -> Result<NsResponse>): (r: Status)
      reads cfg
      ensures var req := exec(NsRequest(Identity(), Mkdir(Join(cfg.mountDir, bucket), true, BucketMode)));
        && (req.Err? ==> r == Some(req.error))
        && (req.Ok? ==> (r.None? <==> req.value.error.None? || req.value.error.value.code == 0))
        && (req.Ok? && r.Some? ==> r == Some(Api(InternalError)))
    {
      BucketVerdict(exec(NsRequest(Identity(), Mkdir(Join(cfg.mountDir, bucket), true, BucketMode))))
    }

    /** DeleteBucket: an rmdir of the bucket's directory. */
    function DeleteBucket(bucket: string, exec: NsRequest -> Result<NsResponse>): (r: Status)
      reads cfg
      ensures var req := exec(NsRequest(Identity(), Rmdir(Join(cfg.mountDir, bucket))));
        && (req.Err? ==> r == Some(req.error))
        && (req.Ok? ==> (r.None? <==> req.value.error.None? || req.value.error.value.code == 0))
        && (req.Ok? && r.Some? ==> r == Some(Api(InternalError)))
    {
      BucketVerdict(exec(NsRequest(Identity(), Rmdir(Join(cfg.mountDir, bucket)))))
    }

    /** DeleteBucket removes the very directory CreateBucket made, and with a
        mount directory of plain elements that is the directory named after
        the bucket right below it. */
    lemma BucketDirectory(base: seq<string>, bucket: string, exec: NsRequest -> Result<NsResponse>)
      requires |base| >= 1 && forall i :: 0 <= i < |base| ==> Plain(base[i])
      requires cfg.mountDir == "/" + JoinFields(base)
      requires Plain(bucket)
      ensures var dir := "/" + JoinFields(base + [bucket]);
        && CreateBucket(bucket, exec) == BucketVerdict(exec(NsRequest(Identity(), Mkdir(dir, true, BucketMode))))
        && DeleteBucket(bucket, exec) == BucketVerdict(exec(NsRequest(Identity(), Rmdir(dir))))
    {
      BucketPathBelowMount(base, bucket);
    }

    /** stat: the first entry a stat of the path streams back. A stream with
        no entry means the path does not exist. */
    function Stat(path: string, isBucket: bool, md: StatRequest -> Result<Stream>): (r: Result<MD>)
      ensures md(StatRequest(path, Identity())).Err? ==> r == Err(md(StatRequest(path, Identity())).error)
      ensures md(StatRequest(path, Identity())).Ok? ==>
        var s := md(StatRequest(path, Identity())).value;
        && (r.Ok? <==> s.items != [])
        && (r.Ok? ==> r.value == s.items[0])
        && (r.Err? ==> r.error == Api(if isBucket then NoSuchBucket else NoSuchKey))
    {
      match md(StatRequest(path, Identity()))
      case Err(e) => Err(e)
      case Ok(s) =>
        if s.items == [] then Err(Api(if isBucket then NoSuchBucket else NoSuchKey))
        else Ok(s.items[0])
    }

    /** The path of an object: the mount directory, the bucket and the key. */
    function ObjectPath(bucket: string, key: string): string
      reads cfg
    {
      Join3(cfg.mountDir, bucket, key)
    }

    /** ListBuckets: the containers one level below the mount directory,
        filtered by the prefix, without version folders and without the mount
        directory's own entry. A failed find is an internal error; a stream
        that breaks returns its error and nothing of what it listed. */
    method ListBuckets(prefix: string, find: FindRequest -> Result<Stream>)
      returns (r: Result<seq<Backend.Entry>>)
      ensures var res := find(FindRequest(cfg.mountDir, Identity(), 1, None));
        && (res.Err? ==> r == Err(Api(InternalError)))
        && (res.Ok? && res.value.end.Broken? ==> r == Err(res.value.end.err))
        && (res.Ok? && res.value.end.Eof? ==> r == Ok(BucketsOf(res.value.items, prefix)))
    {
      var res := find(FindRequest(cfg.mountDir, Identity(), 1, None));
      if res.Err? {
        return Err(Api(InternalError));
      }
      var entries := FilterBuckets(res.value.items, prefix);
      if res.value.end.Broken? {
        return Err(res.value.end.err);
      }
      r := Ok(entries);
    }

    /** HeadObject: the size, etag and modification time of a file. A
        container, or an entry without file metadata, is no such key. */
    function HeadObject(bucket: string, key: string, md: StatRequest -> Result<Stream>)
      : (r: Result<Backend.HeadObjectOutput>)
      reads cfg
      ensures var info := Stat(ObjectPath(bucket, key), false, md);
        && (info.Err? ==> r == Err(info.error))
        && (info.Ok? && (info.value.typ == Container || info.value.fmd.None?) ==> r == Err(Api(NoSuchKey)))
        && (info.Ok? && info.value.typ == File && info.value.fmd.Some? ==>
              var f := info.value.fmd.value;
              r == Ok(Backend.HeadObjectOutput(Int64(Uint64(f.size)), f.etag, f.mtime)))
    {
      var info := Stat(ObjectPath(bucket, key), false, md);
      if info.Err? then Err(info.error)
      else if info.value.typ == Container || info.value.fmd.None? then Err(Api(NoSuchKey))
      else
        var f := info.value.fmd.value;
        Ok(Backend.HeadObjectOutput(Int64(Uint64(f.size)), f.etag, f.mtime))
    }

    /** The length HeadObject reports is the file's size for every size
        below 2^63, and negative past it. */
    lemma HeadObjectLength(bucket: string, key: string, md: StatRequest -> Result<Stream>)
      requires HeadObject(bucket, key, md).Ok?
      ensures var f := Stat(ObjectPath(bucket, key), false, md).value.fmd.value;
        && (f.size < TwoTo63 ==> HeadObject(bucket, key, md).value.contentLength == f.size)
        && (TwoTo63 <= f.size < TwoTo64 ==> HeadObject(bucket, key, md).value.contentLength < 0)
    {
    }

    /** GetObject: the download of the object's path by the HTTP client. Only
        missing file metadata is no such key: a container is downloaded too.
        The result is None while the download is still redirected when the
        replies run out. */
    method GetObject(bucket: string, key: string, md: StatRequest -> Result<Stream>,
                     newRequestError: string -> Option<Error>, replies: seq<Result<Http.Response>>)
      returns (r: Option<Result<Backend.GetObjectOutput>>, trace: seq<Http.Request>)
      ensures var path := ObjectPath(bucket, key);
        var info := Stat(path, false, md);
        && (info.Err? ==> r == Some(Err(info.error)) && trace == [])
        && (info.Ok? && info.value.fmd.None? ==> r == Some(Err(Api(NoSuchKey))) && trace == [])
        && (info.Ok? && info.value.fmd.Some? ==>
              var url := LegacyHttp.BuildFullURL(HttpConfigOf(cfg), path);
              var c := HttpConfigOf(cfg);
              && (newRequestError(url).Some? ==> r == Some(Err(newRequestError(url).value)) && trace == [])
              && (newRequestError(url).None? ==>
                    var (verdict, sent) := Http.GetLoop(Http.NewRequest(Http.Get, url, false), c.authkey, c.username,
                                                        newRequestError, replies, 0);
                    && trace == sent
                    && (verdict.None? ==> r.None?)
                    && (verdict.Some? && verdict.value.Err? ==> r == Some(Err(verdict.value.error)))
                    && (verdict.Some? && verdict.value.Ok? ==>
                          r == Some(Ok(Backend.GetObjectOutput(Int64(Uint64(info.value.fmd.value.size))))))))
    {
      var path := ObjectPath(bucket, key);
      var info := Stat(path, false, md);
      if info.Err? {
        return Some(Err(info.error)), [];
      }
      if info.value.fmd.None? {
        return Some(Err(Api(NoSuchKey))), [];
      }
      var verdict;
      verdict, trace := LegacyHttp.Get(HttpConfigOf(cfg), path, newRequestError, replies);
      if verdict.None? {
        return None, trace;
      }
      if verdict.value.Err? {
        return Some(Err(verdict.value.error)), trace;
      }
      r := Some(Ok(Backend.GetObjectOutput(Int64(Uint64(info.value.fmd.value.size)))));
    }

    /** ListObjects: every file at any depth below the bucket directory, once
        the bucket is known to exist. A stream that breaks returns its error
        and nothing of what it listed. */
    method ListObjects(bucket: string, md: StatRequest -> Result<Stream>, find: FindRequest -> Result<Stream>)
      returns (r: Result<ObjectList>)
      ensures var p := Join(cfg.mountDir, bucket);
        var info := Stat(p, true, md);
        var res := find(FindRequest(p, Identity(), MaxUint64, None));
        && (info.Err? ==> r == Err(info.error))
        && (info.Ok? && res.Err? ==> r == Err(res.error))
        && (info.Ok? && res.Ok? && res.value.end.Broken? ==> r == Err(res.value.end.err))
        && (info.Ok? && res.Ok? && res.value.end.Eof? ==> r == Ok(ObjectList(bucket, Files(p, res.value.items))))
    {
      var p := Join(cfg.mountDir, bucket);
      var info := Stat(p, true, md);
      if info.Err? {
        return Err(info.error);
      }
      var res := find(FindRequest(p, Identity(), MaxUint64, None));
      if res.Err? {
        return Err(res.error);
      }
      var contents := CollectFiles(p, res.value.items);
      if res.value.end.Broken? {
        return Err(res.value.end.err);
      }
      r := Ok(ObjectList(bucket, contents));
    }

    /** DeleteObject as written: after the stat, the answer's error part is
        read without a nil check, so an answer without one panics. */
    function DeleteObjectAsWritten(bucket: string, key: string, md: StatRequest -> Result<Stream>,
                                   exec: NsRequest -> Result<NsResponse>): (r: Status)
      reads cfg
      ensures var p := ObjectPath(bucket, key);
        var info := Stat(p, false, md);
        var res := exec(NsRequest(Identity(), Rm(p)));
        && (info.Err? ==> r == Some(info.error))
        && (info.Ok? && res.Err? ==> r == Some(res.error))
        && (info.Ok? && res.Ok? && res.value.error.None? ==> r == Some(Backend.NilDeref))
        && (info.Ok? && res.Ok? && res.value.error.Some? ==>
              (r.None? <==> res.value.error.value.code == 0)
              && (r.Some? ==> r == Some(Message(RmErrorText(res.value.error.value)))))
    {
      var p := ObjectPath(bucket, key);
      var info := Stat(p, false, md);
      if info.Err? then Some(info.error)
      else match exec(NsRequest(Identity(), Rm(p)))
        case Err(e) => Some(e)
        case Ok(ns) =>
          if ns.error.None? then Some(Backend.NilDeref)
          else if ns.error.value.code != 0 then Some(Message(RmErrorText(ns.error.value)))
          else None
    }

    /** DeleteObject: as written, except that an answer without an error part
        is a success, as CreateBucket and DeleteBucket read it. */
    function DeleteObject(bucket: string, key: string, md: StatRequest -> Result<Stream>,
                          exec: NsRequest -> Result<NsResponse>): (r: Status)
      reads cfg
      ensures var p := ObjectPath(bucket, key);
        var info := Stat(p, false, md);
        var res := exec(NsRequest(Identity(), Rm(p)));
        && (info.Err? ==> r == Some(info.error))
        && (info.Ok? && res.Err? ==> r == Some(res.error))
        && (info.Ok? && res.Ok? ==>
              (r.None? <==> res.value.error.None? || res.value.error.value.code == 0)
              && (r.Some? ==> r == Some(Message(RmErrorText(res.value.error.value)))))
    {
      var p := ObjectPath(bucket, key);
      var info := Stat(p, false, md);
      if info.Err? then Some(info.error)
      else match exec(NsRequest(Identity(), Rm(p)))
        case Err(e) => Some(e)
        case Ok(ns) =>
          if ns.error.Some? && ns.error.value.code != 0 then Some(Message(RmErrorText(ns.error.value)))
          else None
    }

    /** The two differ on exactly one kind of answer: an existing file whose
        rm answer carries no error part panics as written and is deleted once
        corrected. Everywhere else they agree. */
    lemma DeleteObjectAsWrittenDiffers(bucket: string, key: string, md: StatRequest -> Result<Stream>,
                                       exec: NsRequest -> Result<NsResponse>)
      ensures var p := ObjectPath(bucket, key);
        var hit := Stat(p, false, md).Ok? && exec(NsRequest(Identity(), Rm(p))) == Ok(NsResponse(None));
        && (hit ==> DeleteObjectAsWritten(bucket, key, md, exec) == Some(Backend.NilDeref)
                    && DeleteObject(bucket, key, md, exec).None?)
        && (!hit ==> DeleteObjectAsWritten(bucket, key, md, exec) == DeleteObject(bucket, key, md, exec))
    {
    }
  }

  /** New: the configuration is validated (and completed) first, then the
      gRPC connection is made; the HTTP client cannot fail after that. */
  method New(cfg: Config, dialError: Option<Error>) returns (r: Result<EosBackend>)
    modifies cfg
    ensures cfg.mountDir == (if cfg.Missing().None? && old(cfg.mountDir) == "" then "/" else old(cfg.mountDir))
    ensures cfg.Missing().Some? ==> r == Err(cfg.Missing().value)
    ensures cfg.Missing().None? && dialError.Some? ==>
      r == Err(Wrapped("error getting grpc client", dialError.value))
    ensures r.Ok? <==> cfg.Missing().None? && dialError.None?
    ensures r.Ok? ==> fresh(r.value) && r.value.cfg == cfg && cfg.mountDir != ""
  {
    var err := cfg.Validate();
    if err.Some? {
      return Err(err.value);
    }
    if dialError.Some? {
      return Err(Wrapped("error getting grpc client", dialError.value));
    }
    HttpConfigValid(cfg);
    var be := new EosBackend(cfg);
    r := Ok(be);
  }
}
