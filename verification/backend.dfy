/** eoss3/eoss3.go: the S3 backend over EOS. It turns bucket and object
    requests into bucket-storer lookups and EOS calls. The logged account
    arrives as an `Option<Account>` (None when the request context holds none);
    every EOS call is a parameter, as in the client model; `time.Now` and the
    MD5 of an uploaded body arrive as values. */
module Backend {
  import opened Common
  import opened Text
  import opened GoBuiltins
  import opened FilePath
  import opened EosUtils
  import opened Md
  import opened MetaStorer
  import opened MetaMemory
  import EosClient
  import Http

  datatype Config = Config(grpcUrl: string, httpUrl: string, authkey: string, computeMd5: bool)

  /** Config.Validate: the first missing setting among the gRPC URL, the HTTP
      URL and the key, in that order. */
  function Validate(c: Config): (r: Status)
    ensures r.None? <==> c.grpcUrl != "" && c.httpUrl != "" && c.authkey != ""
    ensures c.grpcUrl == "" ==> r == Some(Message("grpc_url not provided"))
    ensures c.grpcUrl != "" && c.httpUrl == "" ==> r == Some(Message("http_url not provided"))
    ensures c.grpcUrl != "" && c.httpUrl != "" && c.authkey == "" ==> r == Some(Message("authkey not provided"))
  {
    if c.grpcUrl == "" then Some(Message("grpc_url not provided"))
    else if c.httpUrl == "" then Some(Message("http_url not provided"))
    else if c.authkey == "" then Some(Message("authkey not provided"))
    else None
  }

  /** The logged account (auth.Account); only the two ids are read. */
  datatype Account = Account(userId: int, groupId: int)

  /** eos.Auth{Uid: uint64(acct.UserID), Gid: uint64(acct.GroupID)}. */
  function AuthOf(a: Account): EosClient.Auth {
    EosClient.Auth(Uint64(a.userId), Uint64(a.groupId))
  }

  /** The mode every directory is created with (0755). */
  const DirMode := 0x1ED

  /** isHiddenResource: EOS's version folders and atomic upload files. */
  predicate IsHiddenResource(path: string) {
    IsVersionFolder(path) || IsAtomicFile(path)
  }

  /** A key is hidden exactly when one of the two markers occurs in it, and a
      key without '#' is never hidden. */
  lemma HiddenIffMarker(path: string)
    ensures IsHiddenResource(path) <==>
      (exists i :: OccursAt(path, VersionMarker, i)) || (exists i :: OccursAt(path, AtomicMarker, i))
    ensures '#' !in path ==> !IsHiddenResource(path)
  {
    IsVersionFolderIff(path);
    IsAtomicFileIff(path);
    if '#' !in path {
      NoHashNoMarker(path);
    }
  }

  // ---- bucket-list pagination (prepareListBucketResult) ----

  /** s3response.ListAllMyBucketsEntry. */
  datatype Entry = Entry(name: string, creationDate: int)

  /** A page of the bucket list and the continuation token. */
  datatype Page = Page(entries: seq<Entry>, ctoken: string)

  function EntryOf(b: Bucket): Entry {
    Entry(b.name, b.createdAt)
  }

  /** The panic of `make` with a negative capacity. */
  const MakeSliceCap: Error := Crash("makeslice: cap out of range")

  const MinInt32: int := -0x8000_0000
  const MaxInt32: int := 0x7FFF_FFFF

  /** slices.IndexFunc with the name test: the first bucket named `tkn`, or -1. */
  function IndexOfName(bs: seq<Bucket>, tkn: string): (i: int)
    ensures -1 <= i < |bs|
    ensures 0 <= i ==> bs[i].name == tkn
    ensures forall j :: 0 <= j < |bs| && (i < 0 || j < i) ==> bs[j].name != tkn
    decreases |bs|
  {
    if bs == [] then -1
    else if bs[0].name == tkn then 0
    else
      var k := IndexOfName(bs[1..], tkn);
      if k < 0 then -1 else k + 1
  }

  /** The buckets from the one the token names onwards, or all of them when
      no bucket has that name. */
  function ResumeAt(bs: seq<Bucket>, tkn: string): (r: seq<Bucket>)
    ensures |r| <= |bs| && r == bs[|bs| - |r|..]
    ensures forall j :: 0 <= j < |bs| - |r| ==> bs[j].name != tkn
    ensures (forall j :: 0 <= j < |bs| ==> bs[j].name != tkn) ==> r == bs
    ensures (exists j :: 0 <= j < |bs| && bs[j].name == tkn) ==> r != [] && r[0].name == tkn
  {
    var i := IndexOfName(bs, tkn);
    if i >= 0 then bs[i..] else bs
  }

  /** The entries of the buckets whose name has the prefix, in input order. */
  function Entries(bs: seq<Bucket>, prefix: string): (r: seq<Entry>)
    ensures |r| <= |bs|
    ensures forall j :: 0 <= j < |r| ==> HasPrefix(r[j].name, prefix)
    decreases |bs|
  {
    if bs == [] then []
    else
      var b := bs[|bs| - 1];
      Entries(bs[..|bs| - 1], prefix) + (if HasPrefix(b.name, prefix) then [EntryOf(b)] else [])
  }

  /** The page a scan of `bs` yields: it stops at index max-1, whose bucket is
      left out and named as the token; a scan that never gets there (always
      so for max 0) keeps every matching bucket and returns no token. */
  function PageOf(bs: seq<Bucket>, prefix: string, max: nat): Page {
    if 1 <= max <= |bs| then Page(Entries(bs[..max - 1], prefix), bs[max - 1].name)
    else Page(Entries(bs, prefix), "")
  }

  /** prepareListBucketResult. `max` is an int32; a negative one makes `make`
      panic. */
  method PrepareListBucketResult(buckets: seq<Bucket>, prefix: string, tkn: string, max: int)
    returns (r: Result<Page>)
    requires MinInt32 <= max <= MaxInt32
    ensures max < 0 ==> r == Err(MakeSliceCap)
    ensures max >= 0 ==> r == Ok(PageOf(ResumeAt(buckets, tkn), prefix, max))
  {
    var bs := buckets;
    var i := IndexOfName(buckets, tkn);
    if i >= 0 {
      bs := buckets[i..];
    }
    if max < 0 {
      return Err(MakeSliceCap);
    }
    assert bs == ResumeAt(buckets, tkn);
    var entries: seq<Entry> := [];
    var k := 0;
    while k < |bs|
      invariant 0 <= k <= |bs|
      invariant max == 0 || k <= max - 1
      invariant entries == Entries(bs[..k], prefix)
    {
      var b := bs[k];
      if k == max - 1 {
        return Ok(Page(entries, b.name));
      }
      EntriesStep(bs, k, prefix);
      if HasPrefix(b.name, prefix) {
        entries := entries + [EntryOf(b)];
      }
      k := k + 1;
    }
    assert bs[..k] == bs;
    return Ok(Page(entries, ""));
  }

  /** One more bucket scanned adds its entry when its name matches. */
  lemma EntriesStep(bs: seq<Bucket>, k: nat, prefix: string)
    requires k < |bs|
    ensures Entries(bs[..k + 1], prefix)
         == Entries(bs[..k], prefix) + (if HasPrefix(bs[k].name, prefix) then [EntryOf(bs[k])] else [])
  {
    assert bs[..k + 1][..k] == bs[..k];
  }

  /** Entries is a filter: it distributes over concatenation. */
  lemma {:induction false} EntriesAppend(a: seq<Bucket>, b: seq<Bucket>, prefix: string)
    ensures Entries(a + b, prefix) == Entries(a, prefix) + Entries(b, prefix)
    decreases |b|
  {
    if b == [] {
      assert a + b == a;
    } else {
      var front := b[..|b| - 1];
      var last := b[|b| - 1];
      assert a + b == (a + front) + [last];
      assert b == front + [last];
      EntriesSnoc(a + front, last, prefix);
      EntriesSnoc(front, last, prefix);
      EntriesAppend(a, front, prefix);
      var t := if HasPrefix(last.name, prefix) then [EntryOf(last)] else [];
      assert Entries(a, prefix) + Entries(front, prefix) + t == Entries(a, prefix) + (Entries(front, prefix) + t);
    }
  }

  lemma EntriesSnoc(bs: seq<Bucket>, x: Bucket, prefix: string)
    ensures Entries(bs + [x], prefix) == Entries(bs, prefix) + (if HasPrefix(x.name, prefix) then [EntryOf(x)] else [])
  {
    assert (bs + [x])[..|bs|] == bs;
  }

  /** Every matching bucket has its entry on the page, and every entry comes
      from a matching bucket. */
  lemma {:induction false} EntriesExact(bs: seq<Bucket>, prefix: string)
    ensures forall k :: 0 <= k < |bs| && HasPrefix(bs[k].name, prefix) ==> EntryOf(bs[k]) in Entries(bs, prefix)
    ensures forall e :: e in Entries(bs, prefix) ==> exists k :: 0 <= k < |bs| && EntryOf(bs[k]) == e
    decreases |bs|
  {
    if bs != [] {
      var front := bs[..|bs| - 1];
      EntriesExact(front, prefix);
      forall e | e in Entries(bs, prefix)
        ensures exists k :: 0 <= k < |bs| && EntryOf(bs[k]) == e
      {
        if e in Entries(front, prefix) {
          var k :| 0 <= k < |front| && EntryOf(front[k]) == e;
          assert EntryOf(bs[k]) == e;
        } else {
          assert EntryOf(bs[|bs| - 1]) == e;
        }
      }
      forall k | 0 <= k < |bs| && HasPrefix(bs[k].name, prefix)
        ensures EntryOf(bs[k]) in Entries(bs, prefix)
      {
        if k < |front| {
          assert front[k] == bs[k];
        }
      }
    }
  }

  /** A page holds at most max-1 entries; the token is the name of the bucket
      at index max-1 when the scan gets there, and "" otherwise. */
  lemma PageBounds(bs: seq<Bucket>, prefix: string, max: nat)
    ensures max >= 1 ==> |PageOf(bs, prefix, max).entries| <= max - 1
    ensures 1 <= max <= |bs| ==> PageOf(bs, prefix, max).ctoken == bs[max - 1].name
    ensures max == 0 || max > |bs| ==> PageOf(bs, prefix, max).ctoken == ""
  {
  }

  predicate DistinctNames(bs: seq<Bucket>) {
    forall i, j :: 0 <= i < j < |bs| ==> bs[i].name != bs[j].name
  }

  /** With distinct names, the bucket the token names is not on the page. */
  lemma PageExcludesToken(bs: seq<Bucket>, prefix: string, max: nat)
    requires DistinctNames(bs)
    requires 1 <= max <= |bs|
    ensures forall e :: e in PageOf(bs, prefix, max).entries ==> e.name != PageOf(bs, prefix, max).ctoken
  {
    var front := bs[..max - 1];
    EntriesExact(front, prefix);
    forall e | e in Entries(front, prefix)
      ensures e.name != bs[max - 1].name
    {
      var k :| 0 <= k < |front| && EntryOf(front[k]) == e;
      assert front[k] == bs[k];
    }
  }

  /** Resuming with the returned token continues exactly where the page
      stopped: the next scan starts at the excluded bucket, and the page
      followed by everything from there is the whole matching list, so no
      bucket is lost or repeated. */
  lemma NextPageContinues(all: seq<Bucket>, tkn: string, prefix: string, max: nat)
    requires DistinctNames(all)
    requires 1 <= max <= |ResumeAt(all, tkn)|
    ensures var rest := ResumeAt(all, tkn);
      && ResumeAt(all, PageOf(rest, prefix, max).ctoken) == rest[max - 1..]
      && Entries(rest, prefix) == PageOf(rest, prefix, max).entries + Entries(rest[max - 1..], prefix)
  {
    var rest := ResumeAt(all, tkn);
    PageTokenResumes(all, tkn, prefix, max);
    PageSplitsEntries(rest, prefix, max);
  }

  lemma PageTokenResumes(all: seq<Bucket>, tkn: string, prefix: string, max: nat)
    requires DistinctNames(all)
    requires 1 <= max <= |ResumeAt(all, tkn)|
    ensures var rest := ResumeAt(all, tkn);
      ResumeAt(all, PageOf(rest, prefix, max).ctoken) == rest[max - 1..]
  {
    var rest := ResumeAt(all, tkn);
    var at := |all| - |rest| + max - 1;
    assert all[at] == rest[max - 1];
    var i := IndexOfName(all, rest[max - 1].name);
    assert i == at;
    assert all[at..] == rest[max - 1..];
  }

  lemma PageSplitsEntries(rest: seq<Bucket>, prefix: string, max: nat)
    requires 1 <= max <= |rest|
    ensures Entries(rest, prefix) == PageOf(rest, prefix, max).entries + Entries(rest[max - 1..], prefix)
  {
    assert rest == rest[..max - 1] + rest[max - 1..];
    EntriesAppend(rest[..max - 1], rest[max - 1..], prefix);
  }

  /** A page size of 1 never moves on: the page is empty and its token names
      the page's own first bucket, so resuming with it yields the same page. */
  lemma PageOfOneRepeats(all: seq<Bucket>, tkn: string, prefix: string)
    requires DistinctNames(all)
    requires ResumeAt(all, tkn) != []
    ensures var p := PageOf(ResumeAt(all, tkn), prefix, 1);
      && p.entries == []
      && ResumeAt(all, p.ctoken) == ResumeAt(all, tkn)
      && PageOf(ResumeAt(all, p.ctoken), prefix, 1) == p
  {
    NextPageContinues(all, tkn, prefix, 1);
    var rest := ResumeAt(all, tkn);
    assert rest[..0] == [];
    assert rest[0..] == rest;
  }

  // ---- object directories and keys ----

  /** retrieveObjectDirectory: the prefix is cut after its last '/'; the part
      before is joined to the bucket path, the part after filters names. */
  function RetrieveObjectDirectory(bucketPath: string, prefix: string): (r: (string, string))
    ensures '/' !in r.1 && HasSuffix(prefix, r.1)
    ensures |r.1| < |prefix| ==> prefix[|prefix| - |r.1| - 1] == '/'
    ensures r.0 == Join(bucketPath, prefix[..|prefix| - |r.1|])
  {
    var (objrel, newprefix) := Split(prefix);
    assert prefix[..|prefix| - |newprefix|] == objrel;
    (Join(bucketPath, objrel), newprefix)
  }

  /** Below an absolute bucket path of plain elements, a prefix made of
      directory elements, each followed by '/', and a last part without '/'
      gives the directory of all those elements and that last part. */
  lemma RetrieveBelowBucket(base: seq<string>, dir: seq<string>, leaf: string)
    requires |base| >= 1
    requires forall i :: 0 <= i < |base| ==> Plain(base[i])
    requires forall i :: 0 <= i < |dir| ==> Plain(dir[i])
    requires '/' !in leaf
    ensures RetrieveObjectDirectory("/" + JoinFields(base), DirOf(dir) + leaf)
         == ("/" + JoinFields(base + dir), leaf)
  {
    SplitAfterDir(DirOf(dir), leaf);
    CleanPlainJoin(base, dir);
  }

  /** The documentation's examples, for any absolute bucket path of plain
      elements (its example is /eos/user/g/gdelmont/bucket): a prefix without
      '/' stays in the bucket directory and filters by itself. */
  lemma RetrieveExampleLeaf(base: seq<string>)
    requires |base| >= 1 && forall i :: 0 <= i < |base| ==> Plain(base[i])
    ensures var bucketPath := "/" + JoinFields(base);
      RetrieveObjectDirectory(bucketPath, "obj") == (bucketPath, "obj")
  {
    RetrieveBelowBucket(base, [], "obj");
    assert base + [] == base;
  }

  /** The same, with the directory written after the bucket path: the
      documentation's "obj/" and "nested/deep/obj" examples are the cases
      dir = ["obj"], leaf = "" and dir = ["nested", "deep"], leaf = "obj". */
  lemma RetrieveBelowBucketJoined(base: seq<string>, dir: seq<string>, leaf: string)
    requires |base| >= 1 && |dir| >= 1
    requires forall i :: 0 <= i < |base| ==> Plain(base[i])
    requires forall i :: 0 <= i < |dir| ==> Plain(dir[i])
    requires '/' !in leaf
    ensures RetrieveObjectDirectory("/" + JoinFields(base), DirOf(dir) + leaf)
         == (("/" + JoinFields(base)) + ("/" + JoinFields(dir)), leaf)
  {
    RetrieveBelowBucket(base, dir, leaf);
    JoinFieldsAppend(base, dir);
    SlashRegroup(JoinFields(base), JoinFields(dir));
  }

  /** Regrouping the separators of a joined path. */
  lemma SlashRegroup(j: string, tail: string)
    ensures "/" + (j + "/" + tail) == ("/" + j) + ("/" + tail)
  {
  }

  datatype Object = Object(key: string, size: int, etag: Option<string>, owner: Option<string>, lastModified: int)

  /** The panic of reading through a nil metadata pointer. */
  const NilDeref: Error := Crash("nil pointer dereference")

  /** mdResponseToS3Object. The key is the entry's path relative to the
      bucket directory ("" when Rel fails), with a '/' added for a container;
      a container has size 0 and no etag or owner; a file carries its size,
      etag and owner uid. Missing metadata of the entry's own type panics. */
  function MdToObject(bucketDir: string, md: MD): (r: Result<Object>)
    ensures r.Err? <==> (md.typ == Container && md.cmd.None?) || (md.typ == File && md.fmd.None?)
    ensures r.Err? ==> r.error == NilDeref
    ensures r.Ok? && md.typ == Container ==>
      && r.value.key == RelOrEmpty(bucketDir, md.cmd.value.path) + "/"
      && r.value.size == 0 && r.value.etag.None? && r.value.owner.None?
      && r.value.lastModified == md.cmd.value.mtime
    ensures r.Ok? && md.typ == File ==>
      && r.value.key == RelOrEmpty(bucketDir, md.fmd.value.path)
      && r.value.size == Int64(Uint64(md.fmd.value.size))
      && r.value.etag == Some(md.fmd.value.etag)
      && r.value.owner == Some(FormatNat(md.fmd.value.uid))
      && r.value.lastModified == md.fmd.value.mtime
  {
    match md.typ
    case Container =>
      if md.cmd.None? then Err(NilDeref)
      else
        var c := md.cmd.value;
        Ok(Object(RelOrEmpty(bucketDir, c.path) + "/", 0, None, None, c.mtime))
    case File =>
      if md.fmd.None? then Err(NilDeref)
      else
        var f := md.fmd.value;
        Ok(Object(RelOrEmpty(bucketDir, f.path), Int64(Uint64(f.size)), Some(f.etag), Some(FormatNat(f.uid)), f.mtime))
  }

  /** The path of an entry's own metadata. */
  function PathOf(md: MD): Option<string> {
    match md.typ
    case Container => if md.cmd.Some? then Some(md.cmd.value.path) else None
    case File => if md.fmd.Some? then Some(md.fmd.value.path) else None
  }

  /** An entry stored below the bucket directory gets as key its path below
      that directory, plus a trailing '/' exactly when it is a container. */
  lemma ObjectKeyBelow(base: seq<string>, rel: seq<string>, md: MD)
    requires |base| >= 1 && |rel| >= 1
    requires forall i :: 0 <= i < |base| ==> Plain(base[i])
    requires forall i :: 0 <= i < |rel| ==> Plain(rel[i])
    requires PathOf(md) == Some("/" + JoinFields(base + rel))
    ensures MdToObject("/" + JoinFields(base), md).Ok?
    ensures MdToObject("/" + JoinFields(base), md).value.key
         == JoinFields(rel) + (if md.typ == Container then "/" else "")
  {
    RelBelow(base, rel);
  }

  // ---- bucket policies ----

  // The fixed text of the policy document, between the four values.
  const PolicyHead := "{\n    \"Version\": \"2012-10-17\",\n    \"Statement\": [\n        {\n            \"Sid\": \""
  const PolicyEffect := "\",\n            \"Effect\": \""
  const PolicyPrincipal := "\",\n            \"Principal\": {\n                \"AWS\": \""
  const ResourceLead := "\"\n            },\n            \"Action\": \"s3:*\",\n            \"Resource\": [\n                \""
  const Arn := "arn:aws:s3:::"
  const Comma := "\","
  const Indent := "\n                \""
  const AllObjects := "/*\""
  const PolicyEnd := "\n            ]\n        }\n    ]\n}"

  /** generateBucketPolicy: a policy document with one statement that gives
      `effect` on every action to `username`, for the bucket and every object
      in it. */
  function GenerateBucketPolicy(sid: string, username: string, effect: string, bucket: string): string {
    PolicyHead + sid + PolicyStatement(effect, username) + PolicyResources(bucket) + PolicyEnd
  }

  /** The statement's effect and principal, up to the resource list. */
  function PolicyStatement(effect: string, username: string): string {
    PolicyEffect + effect + PolicyPrincipal + username + ResourceLead
  }

  /** The two resources: the bucket and every object in it. */
  function PolicyResources(bucket: string): string {
    Arn + bucket + Comma + Indent + Arn + bucket + AllObjects
  }

  /** The statement id sits right after the fixed head, so policies with
      different statement ids of the same length differ there. */
  lemma PolicySidAt(sid: string, username: string, effect: string, bucket: string, i: nat)
    requires i < |sid|
    ensures |PolicyHead| + i < |GenerateBucketPolicy(sid, username, effect, bucket)|
    ensures GenerateBucketPolicy(sid, username, effect, bucket)[|PolicyHead| + i] == sid[i]
  {
    AtAfterHead(PolicyHead, sid, PolicyStatement(effect, username), PolicyResources(bucket), PolicyEnd, i);
  }

  lemma AtAfterHead(h: string, s: string, a: string, b: string, c: string, i: nat)
    requires i < |s|
    ensures |h| + i < |h + s + a + b + c| && (h + s + a + b + c)[|h| + i] == s[i]
  {
  }

  /** The policy names the effect, the user, and as its resources the bucket
      and every object in it. */
  lemma PolicyNamesResources(sid: string, username: string, effect: string, bucket: string)
    ensures Contains(GenerateBucketPolicy(sid, username, effect, bucket), PolicyEffect + effect + PolicyPrincipal)
    ensures Contains(GenerateBucketPolicy(sid, username, effect, bucket), PolicyPrincipal + username + ResourceLead)
    ensures Contains(GenerateBucketPolicy(sid, username, effect, bucket), Arn + bucket + Comma)
    ensures Contains(GenerateBucketPolicy(sid, username, effect, bucket), Arn + bucket + AllObjects)
  {
    var head := PolicyHead + sid;
    var st := PolicyStatement(effect, username);
    var res := PolicyResources(bucket);
    var m1 := PolicyEffect + effect + PolicyPrincipal;
    var m2 := PolicyPrincipal + username + ResourceLead;
    var m3 := Arn + bucket + Comma;
    var m4 := Arn + bucket + AllObjects;
    assert Contains(st, m1) by {
      ContainsPrefix(m1, username);
      ContainsAppended(m1 + username, ResourceLead, m1);
    }
    assert Contains(st, m2) by {
      ContainsAtEnd(PolicyEffect + effect, PolicyPrincipal, username, ResourceLead);
    }
    assert Contains(res, m3) by {
      ContainsPrefix(m3, Indent);
      ContainsAppended(m3 + Indent, Arn, m3);
      ContainsAppended(m3 + Indent + Arn, bucket, m3);
      ContainsAppended(m3 + Indent + Arn + bucket, AllObjects, m3);
    }
    assert Contains(res, m4) by {
      ContainsAtEnd(m3 + Indent, Arn, bucket, AllObjects);
    }
    InStatement(head, st, res, PolicyEnd, m1);
    InStatement(head, st, res, PolicyEnd, m2);
    InResources(head + st, res, PolicyEnd, m3);
    InResources(head + st, res, PolicyEnd, m4);
  }

  lemma InStatement(head: string, st: string, res: string, end: string, m: string)
    requires Contains(st, m)
    ensures Contains(head + st + res + end, m)
  {
    ContainsExtended(head, st, res, m);
    ContainsAppended(head + st + res, end, m);
  }

  lemma InResources(front: string, res: string, end: string, m: string)
    requires Contains(res, m)
    ensures Contains(front + res + end, m)
  {
    ContainsExtended(front, res, end, m);
  }

  /** An assigned bucket's policy allows and any other bucket's denies; the
      two documents differ in their statement id. */
  function GetBucketPolicy(bucket: string, acct: Option<Account>,
                           isAssigned: (string, int) -> bool,
                           lookupUser: nat -> Option<string>): (r: Result<string>)
    ensures acct.None? ==> r == Err(Api(AccessDenied))
    ensures acct.Some? ==>
      var user := EosClient.Username(AuthOf(acct.value), lookupUser);
      && (isAssigned(bucket, acct.value.userId) ==>
            r == Ok(GenerateBucketPolicy("AllowAllActionsToUser", user, "Allow", bucket)))
      && (!isAssigned(bucket, acct.value.userId) ==>
            r == Ok(GenerateBucketPolicy("DenyAllActionsToUser", user, "Deny", bucket)))
  {
    if acct.None? then Err(Api(AccessDenied))
    else
      var auth := AuthOf(acct.value);
      var user := EosClient.Username(auth, lookupUser);
      if isAssigned(bucket, acct.value.userId) then
        Ok(GenerateBucketPolicy("AllowAllActionsToUser", user, "Allow", bucket))
      else
        Ok(GenerateBucketPolicy("DenyAllActionsToUser", user, "Deny", bucket))
  }

  /** The allowing and the denying policy of a user for a bucket are never the
      same document. */
  lemma AllowDiffersFromDeny(user: string, bucket: string)
    ensures GenerateBucketPolicy("AllowAllActionsToUser", user, "Allow", bucket)
         != GenerateBucketPolicy("DenyAllActionsToUser", user, "Deny", bucket)
  {
    PolicySidAt("AllowAllActionsToUser", user, "Allow", bucket, 0);
    PolicySidAt("DenyAllActionsToUser", user, "Deny", bucket, 0);
  }

  // ---- listing objects ----

  /** What the listing callbacks see of one entry: its type and the object
      mdResponseToS3Object makes of it (or the panic). */
  datatype Item = Item(typ: NodeType, obj: Result<Object>)

  /** The items of the entries handed to a callback, in order. */
  function Items(bucketDir: string, mds: seq<MD>): (r: seq<Item>)
    ensures |r| == |mds|
    ensures forall i :: 0 <= i < |mds| ==> r[i] == Item(mds[i].typ, MdToObject(bucketDir, mds[i]))
  {
    seq(|mds|, i requires 0 <= i < |mds| => Item(mds[i].typ, MdToObject(bucketDir, mds[i])))
  }

  /** The objects the ListObjects callback collects, in order: hidden keys
      are dropped, and a panic on any entry ends the whole listing. */
  function Visible(items: seq<Item>): (r: Result<seq<Object>>)
    ensures r.Err? ==> exists j :: 0 <= j < |items| && items[j].obj == Err(r.error)
    ensures r.Ok? ==> |r.value| <= |items|
    ensures r.Ok? ==> forall i :: 0 <= i < |r.value| ==> !IsHiddenResource(r.value[i].key)
    decreases |items|
  {
    if items == [] then Ok([])
    else
      var prev := Visible(items[..|items| - 1]);
      var obj := items[|items| - 1].obj;
      if prev.Err? then prev
      else if obj.Err? then Err(obj.error)
      else if IsHiddenResource(obj.value.key) then prev
      else Ok(prev.value + [obj.value])
  }

  /** The listing panics exactly when some entry panics. */
  lemma {:induction false} VisibleCrash(items: seq<Item>)
    ensures Visible(items).Err? <==> exists j :: 0 <= j < |items| && items[j].obj.Err?
    decreases |items|
  {
    if items != [] {
      var front := items[..|items| - 1];
      VisibleCrash(front);
      if exists j :: 0 <= j < |items| && items[j].obj.Err? {
        var j :| 0 <= j < |items| && items[j].obj.Err?;
        if j < |front| {
          assert front[j] == items[j];
        }
      }
    }
  }

  /** An item whose object the listing shows. */
  predicate Shows(item: Item, o: Object) {
    item.obj == Ok(o) && !IsHiddenResource(o.key)
  }

  /** A listing that does not panic holds the object of every item whose key
      is not hidden, and nothing else. */
  lemma {:induction false} VisibleExact(items: seq<Item>)
    requires Visible(items).Ok?
    ensures forall o :: o in Visible(items).value <==> exists j :: 0 <= j < |items| && Shows(items[j], o)
    decreases |items|
  {
    if items != [] {
      var front := items[..|items| - 1];
      var r := Visible(items).value;
      VisibleExact(front);
      forall o | o in r
        ensures exists j :: 0 <= j < |items| && Shows(items[j], o)
      {
        if o in Visible(front).value {
          var j :| 0 <= j < |front| && Shows(front[j], o);
          assert items[j] == front[j];
        } else {
          assert Shows(items[|items| - 1], o);
        }
      }
      forall o | exists j :: 0 <= j < |items| && Shows(items[j], o)
        ensures o in r
      {
        var j :| 0 <= j < |items| && Shows(items[j], o);
        if j < |front| {
          assert front[j] == items[j];
        }
      }
    }
  }

  /** What the ListObjectsV2 callback collects: the objects, the common
      prefixes in the order first met, and the set of prefixes seen. */
  datatype Grouping = Grouping(objects: seq<Object>, prefixes: seq<string>, seen: set<string>)

  /** The ListObjectsV2 callback over the items, in order. With `grouping`
      (delimiter "/") a container's key becomes a common prefix, once;
      without it a container is dropped; only files become objects. */
  function Grouped(items: seq<Item>, grouping: bool): (r: Result<Grouping>)
    ensures r.Err? ==> exists j :: 0 <= j < |items| && items[j].obj == Err(r.error)
    ensures r.Ok? ==> forall p :: p in r.value.seen <==> p in r.value.prefixes
    ensures r.Ok? && !grouping ==> r.value.prefixes == []
    ensures r.Ok? ==> forall i :: 0 <= i < |r.value.prefixes| ==> !IsHiddenResource(r.value.prefixes[i])
    ensures r.Ok? ==> forall i :: 0 <= i < |r.value.objects| ==> !IsHiddenResource(r.value.objects[i].key)
    ensures r.Ok? ==> forall i, j :: 0 <= i < j < |r.value.prefixes| ==> r.value.prefixes[i] != r.value.prefixes[j]
    decreases |items|
  {
    if items == [] then Ok(Grouping([], [], {}))
    else
      var prev := Grouped(items[..|items| - 1], grouping);
      var item := items[|items| - 1];
      if prev.Err? then prev
      else if item.obj.Err? then Err(item.obj.error)
      else if IsHiddenResource(item.obj.value.key) then prev
      else
        var g := prev.value;
        var key := item.obj.value.key;
        if grouping && item.typ == Container then
          if key in g.seen then prev
          else Ok(Grouping(g.objects, g.prefixes + [key], g.seen + {key}))
        else if item.typ != Container then Ok(Grouping(g.objects + [item.obj.value], g.prefixes, g.seen))
        else prev
  }

  /** The items of files, in order. */
  function FilesOf(items: seq<Item>): (r: seq<Item>)
    ensures |r| <= |items|
    decreases |items|
  {
    if items == [] then []
    else
      var front := FilesOf(items[..|items| - 1]);
      if items[|items| - 1].typ == File then front + [items[|items| - 1]] else front
  }

  /** The objects of a grouping are exactly the listing of the files among
      the items: containers never reach Contents, grouped or not. */
  lemma {:induction false} GroupedObjects(items: seq<Item>, grouping: bool)
    requires Grouped(items, grouping).Ok?
    ensures Visible(FilesOf(items)) == Ok(Grouped(items, grouping).value.objects)
    decreases |items|
  {
    if items != [] {
      var front := items[..|items| - 1];
      var last := items[|items| - 1];
      GroupedLastObject(items, grouping);
      GroupedObjects(front, grouping);
      if last.typ == File {
        var files := FilesOf(items);
        assert files[..|files| - 1] == FilesOf(front);
      }
    }
  }

  /** What the last item adds to a grouping's objects. */
  lemma GroupedLastObject(items: seq<Item>, grouping: bool)
    requires items != [] && Grouped(items, grouping).Ok?
    ensures var front := items[..|items| - 1];
      var last := items[|items| - 1];
      && Grouped(front, grouping).Ok? && last.obj.Ok?
      && Grouped(items, grouping).value.objects ==
           if last.typ == File && !IsHiddenResource(last.obj.value.key)
           then Grouped(front, grouping).value.objects + [last.obj.value]
           else Grouped(front, grouping).value.objects
  {
  }

  /** An item that stands for a common prefix. */
  predicate PrefixOf(item: Item, p: string) {
    item.typ == Container && item.obj.Ok? && item.obj.value.key == p && !IsHiddenResource(p)
  }

  /** With grouping, the common prefixes are exactly the keys of the visible
      containers (each once, by Grouped's contract). */
  lemma {:induction false} GroupedPrefixes(items: seq<Item>)
    requires Grouped(items, true).Ok?
    ensures forall p :: p in Grouped(items, true).value.prefixes <==>
      exists j :: 0 <= j < |items| && PrefixOf(items[j], p)
    decreases |items|
  {
    if items != [] {
      var front := items[..|items| - 1];
      var g := Grouped(items, true).value;
      GroupedPrefixes(front);
      forall p | p in g.prefixes
        ensures exists j :: 0 <= j < |items| && PrefixOf(items[j], p)
      {
        if p in Grouped(front, true).value.prefixes {
          var j :| 0 <= j < |front| && PrefixOf(front[j], p);
          assert items[j] == front[j];
        } else {
          assert PrefixOf(items[|items| - 1], p);
        }
      }
      forall p | exists j :: 0 <= j < |items| && PrefixOf(items[j], p)
        ensures p in g.prefixes
      {
        var j :| 0 <= j < |items| && PrefixOf(items[j], p);
        if j < |front| {
          assert front[j] == items[j];
        }
      }
    }
  }

  /** A common prefix is a container's key, so it ends in '/'. */
  lemma PrefixesEndInSlash(bucketDir: string, mds: seq<MD>)
    requires Grouped(Items(bucketDir, mds), true).Ok?
    ensures forall p :: p in Grouped(Items(bucketDir, mds), true).value.prefixes ==>
      |p| >= 1 && p[|p| - 1] == '/'
  {
    var items := Items(bucketDir, mds);
    GroupedPrefixes(items);
    forall p | p in Grouped(items, true).value.prefixes
      ensures |p| >= 1 && p[|p| - 1] == '/'
    {
      var j :| 0 <= j < |items| && PrefixOf(items[j], p);
      assert items[j] == Item(mds[j].typ, MdToObject(bucketDir, mds[j]));
    }
  }

  /** Handing one more item to the ListObjectsV2 callback. */
  lemma GroupedStep(items: seq<Item>, k: nat, grouping: bool)
    requires k < |items|
    ensures Grouped(items[..k + 1], grouping) ==
      var prev := Grouped(items[..k], grouping);
      var item := items[k];
      if prev.Err? then prev
      else if item.obj.Err? then Err(item.obj.error)
      else if IsHiddenResource(item.obj.value.key) then prev
      else
        var g := prev.value;
        var key := item.obj.value.key;
        if grouping && item.typ == Container then
          if key in g.seen then prev
          else Ok(Grouping(g.objects, g.prefixes + [key], g.seen + {key}))
        else if item.typ != Container then Ok(Grouping(g.objects + [item.obj.value], g.prefixes, g.seen))
        else prev
  {
    assert items[..k + 1][..k] == items[..k];
  }

  /** Handing one more item to the ListObjects callback. */
  lemma VisibleStep(items: seq<Item>, k: nat)
    requires k < |items|
    ensures Visible(items[..k + 1]) ==
      var prev := Visible(items[..k]);
      var obj := items[k].obj;
      if prev.Err? then prev
      else if obj.Err? then Err(obj.error)
      else if IsHiddenResource(obj.value.key) then prev
      else Ok(prev.value + [obj.value])
  {
    assert items[..k + 1][..k] == items[..k];
  }

  /** A panic ends the ListObjects listing: later items change nothing. */
  lemma {:induction false} VisibleErrSticks(items: seq<Item>, k: nat)
    requires k <= |items| && Visible(items[..k]).Err?
    ensures Visible(items) == Visible(items[..k])
    decreases |items|
  {
    if k < |items| {
      var front := items[..|items| - 1];
      assert front[..k] == items[..k];
      VisibleErrSticks(front, k);
    } else {
      assert items[..k] == items;
    }
  }

  /** A panic ends the ListObjectsV2 listing: later items change nothing. */
  lemma {:induction false} GroupedErrSticks(items: seq<Item>, k: nat, grouping: bool)
    requires k <= |items| && Grouped(items[..k], grouping).Err?
    ensures Grouped(items, grouping) == Grouped(items[..k], grouping)
    decreases |items|
  {
    if k < |items| {
      var front := items[..|items| - 1];
      assert front[..k] == items[..k];
      GroupedErrSticks(front, k, grouping);
    } else {
      assert items[..k] == items;
    }
  }

  /** The entries ListDir hands to its callback: all but the first. */
  function Delivered(items: seq<MD>): (r: seq<MD>)
    ensures |r| == (if items == [] then 0 else |items| - 1)
    ensures forall j :: 0 <= j < |r| ==> r[j] == items[j + 1]
  {
    if items == [] then [] else items[1..]
  }

  /** The ListObjects callback run over the entries ListDir hands it. */
  method CollectObjects(bucketDir: string, delivered: seq<MD>) returns (r: Result<seq<Object>>)
    ensures r == Visible(Items(bucketDir, delivered))
  {
    ghost var items := Items(bucketDir, delivered);
    var objects: seq<Object> := [];
    var k := 0;
    while k < |delivered|
      invariant 0 <= k <= |delivered|
      invariant Visible(items[..k]) == Ok(objects)
    {
      VisibleStep(items, k);
      var obj := MdToObject(bucketDir, delivered[k]);
      if obj.Err? {
        VisibleErrSticks(items, k + 1);
        return Err(obj.error);
      }
      if !IsHiddenResource(obj.value.key) {
        objects := objects + [obj.value];
      }
      k := k + 1;
    }
    assert items[..k] == items;
    r := Ok(objects);
  }

  /** The ListObjectsV2 callback run over the entries ListDir hands it; the
      set of prefixes seen is the callback's map used as a set. */
  method GroupObjects(bucketDir: string, delivered: seq<MD>, grouping: bool) returns (r: Result<Grouping>)
    ensures r == Grouped(Items(bucketDir, delivered), grouping)
  {
    ghost var items := Items(bucketDir, delivered);
    var objects: seq<Object> := [];
    var prefixes: seq<string> := [];
    var prefixesSet: set<string> := {};
    var k := 0;
    while k < |delivered|
      invariant 0 <= k <= |delivered|
      invariant Grouped(items[..k], grouping) == Ok(Grouping(objects, prefixes, prefixesSet))
    {
      GroupedStep(items, k, grouping);
      var md := delivered[k];
      var obj := MdToObject(bucketDir, md);
      k := k + 1;
      if obj.Err? {
        GroupedErrSticks(items, k, grouping);
        return Err(obj.error);
      }
      if IsHiddenResource(obj.value.key) {
        continue;
      }
      if grouping && md.typ == Container {
        if obj.value.key in prefixesSet {
          continue;
        }
        prefixes := prefixes + [obj.value.key];
        prefixesSet := prefixesSet + {obj.value.key};
        continue;
      }
      if md.typ != Container {
        objects := objects + [obj.value];
      }
    }
    assert items[..k] == items;
    r := Ok(Grouping(objects, prefixes, prefixesSet));
  }

  // ---- the backend ----

  /** The stored buckets the names denote, in the names' order; a name with
      no stored bucket is skipped. */
  function KnownBuckets(names: seq<string>, stored: map<string, Bucket>): (r: seq<Bucket>)
    ensures |r| <= |names|
    decreases |names|
  {
    if names == [] then []
    else
      var n := names[|names| - 1];
      KnownBuckets(names[..|names| - 1], stored) + (if n in stored then [stored[n]] else [])
  }

  /** A user's listing holds the stored bucket of every assigned name that
      has one, and nothing else. */
  lemma {:induction false} KnownBucketsExact(names: seq<string>, stored: map<string, Bucket>)
    ensures forall b :: b in KnownBuckets(names, stored) <==>
      exists j :: 0 <= j < |names| && names[j] in stored && stored[names[j]] == b
    decreases |names|
  {
    if names != [] {
      var front := names[..|names| - 1];
      KnownBucketsExact(front, stored);
      forall b | b in KnownBuckets(names, stored)
        ensures exists j :: 0 <= j < |names| && names[j] in stored && stored[names[j]] == b
      {
        if b in KnownBuckets(front, stored) {
          var j :| 0 <= j < |front| && front[j] in stored && stored[front[j]] == b;
          assert names[j] == front[j];
        } else {
          assert names[|names| - 1] in stored && stored[names[|names| - 1]] == b;
        }
      }
      forall b | exists j :: 0 <= j < |names| && names[j] in stored && stored[names[j]] == b
        ensures b in KnownBuckets(names, stored)
      {
        var j :| 0 <= j < |names| && names[j] in stored && stored[names[j]] == b;
        if j < |front| {
          assert front[j] == names[j];
        }
      }
    }
  }

  /** The EOS services the backend calls: the gRPC MD, Find and Exec calls,
      the HTTP request constructor's verdict on a URL, and the user database. */
  datatype Server = Server(
    md: StatRequest -> Result<Stream>,
    find: FindRequest -> Result<Stream>,
    exec: NsRequest -> Result<NsResponse>,
    newRequestError: string -> Option<Error>,
    lookupUser: nat -> Option<string>)

  datatype ListBucketsInput = ListBucketsInput(
    isAdmin: bool, owner: string, prefix: string, continuationToken: string, maxBuckets: int)

  /** s3response.ListAllMyBucketsResult. */
  datatype BucketList = BucketList(buckets: seq<Entry>, owner: string, ctoken: string, prefix: string)

  /** The answer ListBuckets builds from the buckets it pages through: the
      makeslice panic exactly for a negative maximum; otherwise fewer entries
      than the maximum, each carrying the prefix and taken from one of the
      buckets, and a token that is "" or the name of one of the buckets. */
  function BucketListOf(input: ListBucketsInput, listed: seq<Bucket>): (r: Result<BucketList>)
    ensures r.Err? <==> input.maxBuckets < 0
    ensures r.Err? ==> r.error == MakeSliceCap
    ensures r.Ok? ==> r.value.owner == input.owner && r.value.prefix == input.prefix
    ensures r.Ok? && input.maxBuckets >= 1 ==> |r.value.buckets| < input.maxBuckets
    ensures r.Ok? ==> forall j :: 0 <= j < |r.value.buckets| ==>
      && HasPrefix(r.value.buckets[j].name, input.prefix)
      && exists k :: 0 <= k < |listed| && EntryOf(listed[k]) == r.value.buckets[j]
    ensures r.Ok? && r.value.ctoken != "" ==>
      exists k :: 0 <= k < |listed| && listed[k].name == r.value.ctoken
  {
    if input.maxBuckets < 0 then Err(MakeSliceCap)
    else
      var page := PageOf(ResumeAt(listed, input.continuationToken), input.prefix, input.maxBuckets);
      PageBounds(ResumeAt(listed, input.continuationToken), input.prefix, input.maxBuckets);
      PageDrawnFrom(listed, input.continuationToken, input.prefix, input.maxBuckets);
      Ok(BucketList(page.entries, input.owner, page.ctoken, input.prefix))
  }

  /** Every entry of a page over the resumed list, and its token, come from a
      bucket of the full list. */
  lemma PageDrawnFrom(listed: seq<Bucket>, tkn: string, prefix: string, max: nat)
    ensures var p := PageOf(ResumeAt(listed, tkn), prefix, max);
      forall j :: 0 <= j < |p.entries| ==> exists k :: 0 <= k < |listed| && EntryOf(listed[k]) == p.entries[j]
    ensures var p := PageOf(ResumeAt(listed, tkn), prefix, max);
      p.ctoken != "" ==> exists k :: 0 <= k < |listed| && listed[k].name == p.ctoken
  {
    var rest := ResumeAt(listed, tkn);
    var off := |listed| - |rest|;
    if 1 <= max <= |rest| {
      EntriesDrawnFrom(listed, off, rest[..max - 1], prefix);
      assert listed[off + max - 1] == rest[max - 1];
    } else {
      EntriesDrawnFrom(listed, off, rest, prefix);
    }
  }

  /** The entries of a slice of the list come from buckets of the list. */
  lemma {:induction false} EntriesDrawnFrom(listed: seq<Bucket>, off: nat, part: seq<Bucket>, prefix: string)
    requires off + |part| <= |listed| && part == listed[off..off + |part|]
    ensures forall j :: 0 <= j < |Entries(part, prefix)| ==>
      exists k :: 0 <= k < |listed| && EntryOf(listed[k]) == Entries(part, prefix)[j]
  {
    EntriesExact(part, prefix);
    forall j | 0 <= j < |Entries(part, prefix)|
      ensures exists k :: 0 <= k < |listed| && EntryOf(listed[k]) == Entries(part, prefix)[j]
    {
      var e := Entries(part, prefix)[j];
      assert e in Entries(part, prefix);
      var i :| 0 <= i < |part| && EntryOf(part[i]) == e;
      assert listed[off + i] == part[i];
      assert EntryOf(listed[off + i]) == e;
    }
    assert forall j :: 0 <= j < |Entries(part, prefix)| ==>
      exists k :: 0 <= k < |listed| && EntryOf(listed[k]) == Entries(part, prefix)[j];
  }

  datatype PutObjectOutput = PutObjectOutput(etag: string)

  /** The hex MD5 of no bytes: the ETag when nothing of the body was read. */
  const EmptyMd5: string := "d41d8cd98f00b204e9800998ecf8427e"

  /** Some request of the upload carried the body, so the hashing reader
      passed all of it on. */
  predicate BodyRead(trace: seq<Http.Request>) {
    exists i :: 0 <= i < |trace| && trace[i].hasBody
  }

  /** The upload reads the body exactly when EOS redirected it at least once:
      the first PUT goes out without the body, every later one carries it. */
  lemma UploadReadsBodyIffRedirected(c: EosClient.Client, auth: EosClient.Auth, user: string, path: string,
                                     length: nat, newRequestError: string -> Option<Error>,
                                     replies: seq<Result<Http.Response>>)
    ensures var sent := EosClient.UploadOutcome(c, auth, user, path, length, newRequestError, replies).1;
      BodyRead(sent) <==> |sent| > 1
  {
    var url := EosClient.BuildFullHttpUrl(c, auth, path);
    var sent := EosClient.UploadOutcome(c, auth, user, path, length, newRequestError, replies).1;
    if newRequestError(url).None? {
      var req := Http.NewRequest(Http.Put, url, false);
      EosClient.PutLoopAttempts(req, c.authKey, user, length, newRequestError, replies, 0);
      if |sent| > 1 {
        assert sent[1].hasBody;
      }
      if BodyRead(sent) {
        var i :| 0 <= i < |sent| && sent[i].hasBody;
        assert i != 0;
      }
    }
  }
  datatype HeadObjectOutput = HeadObjectOutput(contentLength: int, etag: string, lastModified: int)
  datatype GetObjectOutput = GetObjectOutput(contentLength: int)
  datatype ListObjectsResult = ListObjectsResult(name: string, prefix: string, delimiter: string, contents: seq<Object>)
  datatype ListObjectsV2Result = ListObjectsV2Result(
    name: string, prefix: string, delimiter: string, contents: seq<Object>, commonPrefixes: seq<string>)

  /** EosBackend: the configuration, the EOS client and the bucket storer. */
  class EosBackend {
    const cfg: Config
    const client: EosClient.Client
    const meta: InMemoryBucketStorer

    ghost predicate Valid()
      reads meta
    {
      meta.Valid()
    }

    /** The backend New builds once the configuration and the client are in
        place. */
    constructor (cfg: Config, client: EosClient.Client, meta: InMemoryBucketStorer)
      requires meta.Valid()
      ensures Valid()
      ensures this.cfg == cfg && this.client == client && this.meta == meta
    {
      this.cfg := cfg;
      this.client := client;
      this.meta := meta;
    }

    /** ListBuckets. An administrator pages through every stored bucket, in
        the storer's order (`listed`); anyone else through the stored buckets
        assigned to them, in assignment order. The assigned names come from
        the corrected ListBucketsByUser (ListBucketsAsWritten is the method as
        the source has it). */
    method ListBuckets(input: ListBucketsInput, acct: Option<Account>)
      returns (r: Result<BucketList>, ghost listed: seq<Bucket>)
      requires Valid()
      requires MinInt32 <= input.maxBuckets <= MaxInt32
      ensures input.isAdmin ==>
        && |listed| == |meta.buckets| && DistinctNames(listed)
        && (forall i :: 0 <= i < |listed| ==> listed[i].name in meta.buckets && meta.buckets[listed[i].name] == listed[i])
        && (forall n :: n in meta.buckets ==> meta.buckets[n] in listed)
      ensures !input.isAdmin && acct.None? ==> r == Err(Message("no user in request"))
      ensures !input.isAdmin && acct.Some? ==>
        listed == KnownBuckets(meta.ListBucketsByUser(acct.value.userId), meta.buckets)
      ensures input.isAdmin || acct.Some? ==> r == BucketListOf(input, listed)
    {
      var bs: seq<Bucket>;
      if input.isAdmin {
        bs := meta.ListBuckets();
      } else {
        if acct.None? {
          return Err(Message("no user in request")), [];
        }
        var names := meta.ListBucketsByUser(acct.value.userId);
        bs := BucketsNamed(names);
      }
      listed := bs;
      var page := PrepareListBucketResult(bs, input.prefix, input.continuationToken, input.maxBuckets);
      if page.Err? {
        return Err(page.error), listed;
      }
      r := Ok(BucketList(page.value.entries, input.owner, page.value.ctoken, input.prefix));
    }

    /** ListBuckets as written: the storer's ListBucketsByUser always answers
        [], so a user who is not an administrator is shown no bucket at all,
        whatever is assigned to them; the administrator's listing is as in
        ListBuckets. */
    method ListBucketsAsWritten(input: ListBucketsInput, acct: Option<Account>)
      returns (r: Result<BucketList>, ghost listed: seq<Bucket>)
      requires Valid()
      requires MinInt32 <= input.maxBuckets <= MaxInt32
      ensures input.isAdmin ==>
        && |listed| == |meta.buckets| && DistinctNames(listed)
        && (forall i :: 0 <= i < |listed| ==> listed[i].name in meta.buckets && meta.buckets[listed[i].name] == listed[i])
        && (forall n :: n in meta.buckets ==> meta.buckets[n] in listed)
        && r == BucketListOf(input, listed)
      ensures !input.isAdmin && acct.None? ==> r == Err(Message("no user in request"))
      ensures !input.isAdmin && acct.Some? && input.maxBuckets < 0 ==> r == Err(MakeSliceCap)
      ensures !input.isAdmin && acct.Some? && input.maxBuckets >= 0 ==>
        r == Ok(BucketList([], input.owner, "", input.prefix))
    {
      var bs: seq<Bucket>;
      if input.isAdmin {
        bs := meta.ListBuckets();
      } else {
        if acct.None? {
          return Err(Message("no user in request")), [];
        }
        var names := meta.ListBucketsByUserAsWritten(acct.value.userId);
        bs := BucketsNamed(names);
      }
      listed := bs;
      var page := PrepareListBucketResult(bs, input.prefix, input.continuationToken, input.maxBuckets);
      if page.Err? {
        return Err(page.error), listed;
      }
      r := Ok(BucketList(page.value.entries, input.owner, page.value.ctoken, input.prefix));
    }

    /** The loop over the user's names: GetBucket for each, keeping the
        buckets found, in the names' order. */
    method BucketsNamed(names: seq<string>) returns (lst: seq<Bucket>)
      ensures lst == KnownBuckets(names, meta.buckets)
    {
      lst := [];
      var k := 0;
      while k < |names|
        invariant 0 <= k <= |names|
        invariant lst == KnownBuckets(names[..k], meta.buckets)
      {
        assert names[..k + 1][..k] == names[..k];
        var m := meta.GetBucket(names[k]);
        if m.Ok? {
          lst := lst + [m.value];
        }
        k := k + 1;
      }
      assert names[..k] == names;
    }

    /** CreateBucket. Refused, in this order and with the storer untouched,
        for a name already stored, without a logged account, and without a
        default path for the user; otherwise the bucket is stored under the
        default path and its directory made, and a failed mkdir is returned
        with the bucket left stored. */
    method CreateBucket(name: string, acct: Option<Account>, now: int, srv: Server) returns (err: Status)
      requires Valid()
      modifies meta
      ensures Valid()
      ensures meta.users == old(meta.users) && meta.paths == old(meta.paths)
      ensures name in old(meta.buckets) ==>
        err == Some(Api(BucketAlreadyExists)) && meta.buckets == old(meta.buckets)
      ensures name !in old(meta.buckets) && acct.None? ==>
        err == Some(Api(AccessDenied)) && meta.buckets == old(meta.buckets)
      ensures name !in old(meta.buckets) && acct.Some? && meta.GetDefaultBucketPath(acct.value.userId) == "" ==>
        err == Some(Api(InvalidQueryParams)) && meta.buckets == old(meta.buckets)
      ensures name !in old(meta.buckets) && acct.Some? && meta.GetDefaultBucketPath(acct.value.userId) != "" ==>
        var path := Join(meta.GetDefaultBucketPath(acct.value.userId), name);
        && meta.buckets == old(meta.buckets)[name := Bucket(name, path, now)]
        && err == EosClient.Mkdir(client, AuthOf(acct.value), path, DirMode, srv.exec)
    {
      if meta.GetBucket(name).Ok? {
        return Some(Api(BucketAlreadyExists));
      }
      if acct.None? {
        return Some(Api(AccessDenied));
      }
      var defaultPath := meta.GetDefaultBucketPath(acct.value.userId);
      if defaultPath == "" {
        return Some(Api(InvalidQueryParams));
      }
      var bucketPath := Join(defaultPath, name);
      var stored := meta.CreateBucket(Bucket(name, bucketPath, now));
      // The name was absent a moment ago, so storing cannot fail.
      assert stored.None?;
      err := EosClient.Mkdir(client, AuthOf(acct.value), bucketPath, DirMode, srv.exec);
    }

    /** DeleteBucket. Without an account, for an unknown name, when the stat
        fails, when the path is not a directory or not empty, or when rmdir
        fails, the storer is untouched; the entry is removed exactly when
        rmdir succeeded. */
    method DeleteBucket(name: string, acct: Option<Account>, srv: Server) returns (err: Status)
      requires Valid()
      modifies meta
      ensures Valid()
      ensures meta.users == old(meta.users) && meta.paths == old(meta.paths)
      ensures err.Some? ==> meta.buckets == old(meta.buckets)
      ensures err.None? ==> meta.buckets == old(meta.buckets) - {name}
      ensures acct.None? ==> err == Some(Api(AccessDenied))
      ensures acct.Some? && name !in old(meta.buckets) ==> err == Some(StorerNoSuchBucket)
      ensures acct.Some? && name in old(meta.buckets) ==>
        var auth := AuthOf(acct.value);
        var path := old(meta.buckets)[name].path;
        var info := EosClient.Stat(client, auth, path, srv.md);
        && (info.Err? ==> err == Some(info.error))
        && (info.Ok? && info.value.typ != Container ==> err == Some(Api(InternalError)))
        && (info.Ok? && info.value.typ == Container && info.value.cmd.None? ==> err == Some(NilDeref))
        && (info.Ok? && info.value.typ == Container && info.value.cmd.Some? ==>
              var cmd := info.value.cmd.value;
              && (Uint64(cmd.containers + cmd.files) != 0 ==> err == Some(Api(BucketNotEmpty)))
              && (Uint64(cmd.containers + cmd.files) == 0 ==> err == EosClient.Rmdir(client, auth, path, srv.exec)))
    {
      if acct.None? {
        return Some(Api(AccessDenied));
      }
      var bucket := meta.GetBucket(name);
      if bucket.Err? {
        return Some(bucket.error);
      }
      var auth := AuthOf(acct.value);
      var info := EosClient.Stat(client, auth, bucket.value.path, srv.md);
      if info.Err? {
        return Some(info.error);
      }
      if info.value.typ != Container {
        return Some(Api(InternalError));
      }
      if info.value.cmd.None? {
        return Some(NilDeref);
      }
      var cmd := info.value.cmd.value;
      if Uint64(cmd.containers + cmd.files) != 0 {
        return Some(Api(BucketNotEmpty));
      }
      err := EosClient.Rmdir(client, auth, bucket.value.path, srv.exec);
      if err.Some? {
        return;
      }
      err := meta.DeleteBucket(name);
    }

    /** PutObject: the bucket must be stored and an account logged; a key
        with '/' first has its parent directories made; then the upload. The
        result is None while the upload is still redirected when the replies
        run out. When so configured the ETag is the MD5 of the bytes the
        upload read from the body: `digest`, the MD5 of the whole body, once a
        request carrying the body went out, and the MD5 of no bytes when the
        first, body-less PUT was accepted outright. */
    method PutObject(name: string, key: string, length: int, digest: string, acct: Option<Account>,
                     srv: Server, replies: seq<Result<Http.Response>>)
      returns (r: Option<Result<PutObjectOutput>>, trace: seq<Http.Request>)
      requires Valid()
      ensures name !in meta.buckets ==> r == Some(Err(StorerNoSuchBucket)) && trace == []
      ensures name in meta.buckets && acct.None? ==> r == Some(Err(Api(AccessDenied))) && trace == []
      ensures name in meta.buckets && acct.Some? ==>
        var auth := AuthOf(acct.value);
        var path := Join(meta.buckets[name].path, key);
        var made := if '/' in key then EosClient.Mkdir(client, auth, Dir(path), DirMode, srv.exec) else None;
        && (made.Some? ==> r == Some(Err(made.value)) && trace == [])
        && (made.None? ==>
              var (verdict, sent) := EosClient.UploadOutcome(client, auth, EosClient.Username(auth, srv.lookupUser),
                                                             path, Uint64(length), srv.newRequestError, replies);
              && trace == sent
              && (verdict.None? ==> r.None?)
              && (verdict.Some? && verdict.value.Some? ==> r == Some(Err(verdict.value.value)))
              && (verdict == Some(None) ==>
                    r == Some(Ok(PutObjectOutput(if !cfg.computeMd5 then "" else if BodyRead(sent) then digest else EmptyMd5)))))
    {
      trace := [];
      var bucket := meta.GetBucket(name);
      if bucket.Err? {
        return Some(Err(bucket.error)), [];
      }
      if acct.None? {
        return Some(Err(Api(AccessDenied))), [];
      }
      var auth := AuthOf(acct.value);
      var path := Join(bucket.value.path, key);
      if '/' in key {
        var made := EosClient.Mkdir(client, auth, Dir(path), DirMode, srv.exec);
        if made.Some? {
          return Some(Err(made.value)), [];
        }
      }
      var verdict;
      verdict, trace := EosClient.Upload(client, auth, EosClient.Username(auth, srv.lookupUser),
                                         path, Uint64(length), srv.newRequestError, replies);
      if verdict.None? {
        return None, trace;
      }
      if verdict.value.Some? {
        return Some(Err(verdict.value.value)), trace;
      }
      r := Some(Ok(PutObjectOutput(if !cfg.computeMd5 then "" else if BodyRead(trace) then digest else EmptyMd5)));
    }

    /** HeadObject: the stat of the key's path; anything but a file with its
        metadata is NoSuchKey. */
    function HeadObject(name: string, key: string, acct: Option<Account>, srv: Server): (r: Result<HeadObjectOutput>)
      reads meta
      ensures name !in meta.buckets ==> r == Err(StorerNoSuchBucket)
      ensures name in meta.buckets && acct.None? ==> r == Err(Api(AccessDenied))
      ensures name in meta.buckets && acct.Some? ==>
        var info := EosClient.Stat(client, AuthOf(acct.value), Join(meta.buckets[name].path, key), srv.md);
        && (info.Err? ==> r == Err(info.error))
        && (info.Ok? && (info.value.typ != File || info.value.fmd.None?) ==> r == Err(Api(NoSuchKey)))
        && (info.Ok? && info.value.typ == File && info.value.fmd.Some? ==>
              var f := info.value.fmd.value;
              r == Ok(HeadObjectOutput(Int64(Uint64(f.size)), f.etag, f.mtime)))
    {
      var bucket := meta.GetBucket(name);
      if bucket.Err? then Err(bucket.error)
      else if acct.None? then Err(Api(AccessDenied))
      else
        var info := EosClient.Stat(client, AuthOf(acct.value), Join(bucket.value.path, key), srv.md);
        if info.Err? then Err(info.error)
        else if info.value.typ != File || info.value.fmd.None? then Err(Api(NoSuchKey))
        else
          var f := info.value.fmd.value;
          Ok(HeadObjectOutput(Int64(Uint64(f.size)), f.etag, f.mtime))
    }

    /** GetObject: the download of the key's path. When the server gives no
        length, a stat supplies the file's size. The result is None while the
        download is still redirected when the replies run out. */
    method GetObject(name: string, key: string, acct: Option<Account>,
                     srv: Server, replies: seq<Result<Http.Response>>)
      returns (r: Option<Result<GetObjectOutput>>, trace: seq<Http.Request>)
      requires Valid()
      ensures acct.None? ==> r == Some(Err(Api(AccessDenied))) && trace == []
      ensures acct.Some? && name !in meta.buckets ==> r == Some(Err(StorerNoSuchBucket)) && trace == []
      ensures acct.Some? && name in meta.buckets ==>
        var auth := AuthOf(acct.value);
        var path := Join(meta.buckets[name].path, key);
        var (verdict, sent) := EosClient.DownloadOutcome(client, auth, EosClient.Username(auth, srv.lookupUser),
                                                         path, srv.newRequestError, replies);
        var info := EosClient.Stat(client, auth, path, srv.md);
        && trace == sent
        && (verdict.None? ==> r.None?)
        && (verdict.Some? && verdict.value.Err? ==> r == Some(Err(verdict.value.error)))
        && (verdict.Some? && verdict.value.Ok? && verdict.value.value.contentLength >= 0 ==>
              r == Some(Ok(GetObjectOutput(verdict.value.value.contentLength))))
        && (verdict.Some? && verdict.value.Ok? && verdict.value.value.contentLength < 0 ==>
              && (info.Err? ==> r == Some(Err(info.error)))
              && (info.Ok? && info.value.typ != File ==> r == Some(Err(Api(NoSuchKey))))
              && (info.Ok? && info.value.typ == File && info.value.fmd.None? ==> r == Some(Err(NilDeref)))
              && (info.Ok? && info.value.typ == File && info.value.fmd.Some? ==>
                    r == Some(Ok(GetObjectOutput(Int64(Uint64(info.value.fmd.value.size)))))))
    {
      if acct.None? {
        return Some(Err(Api(AccessDenied))), [];
      }
      var bucket := meta.GetBucket(name);
      if bucket.Err? {
        return Some(Err(bucket.error)), [];
      }
      var auth := AuthOf(acct.value);
      var path := Join(bucket.value.path, key);
      var verdict;
      verdict, trace := EosClient.Download(client, auth, EosClient.Username(auth, srv.lookupUser),
                                           path, srv.newRequestError, replies);
      if verdict.None? {
        return None, trace;
      }
      if verdict.value.Err? {
        return Some(Err(verdict.value.error)), trace;
      }
      var size := verdict.value.value.contentLength;
      if size < 0 {
        var info := EosClient.Stat(client, auth, path, srv.md);
        if info.Err? {
          return Some(Err(info.error)), trace;
        }
        if info.value.typ != File {
          return Some(Err(Api(NoSuchKey))), trace;
        }
        if info.value.fmd.None? {
          return Some(Err(NilDeref)), trace;
        }
        size := Int64(Uint64(info.value.fmd.value.size));
      }
      r := Some(Ok(GetObjectOutput(size)));
    }

    /** DeleteObject: an rm of the key's path, read the way Mkdir and Rmdir
        read their answer. */
    function DeleteObject(name: string, key: string, acct: Option<Account>, srv: Server): (r: Status)
      reads meta
      ensures name !in meta.buckets ==> r == Some(StorerNoSuchBucket)
      ensures name in meta.buckets && acct.None? ==> r == Some(Api(AccessDenied))
      ensures name in meta.buckets && acct.Some? ==>
        r == EosClient.Remove(client, AuthOf(acct.value), Join(meta.buckets[name].path, key), srv.exec)
    {
      var bucket := meta.GetBucket(name);
      if bucket.Err? then Some(bucket.error)
      else if acct.None? then Some(Api(AccessDenied))
      else EosClient.Remove(client, AuthOf(acct.value), Join(bucket.value.path, key), srv.exec)
    }

    /** ListObjects: the listing of the prefix's directory part below the
        bucket; the part after the last '/' is not used as a filter. A
        panicking entry ends the listing before the stream's own error. */
    method ListObjects(name: string, prefix: string, delimiter: string, acct: Option<Account>, srv: Server)
      returns (r: Result<ListObjectsResult>)
      requires Valid()
      ensures name !in meta.buckets ==> r == Err(StorerNoSuchBucket)
      ensures name in meta.buckets && acct.None? ==> r == Err(Api(AccessDenied))
      ensures name in meta.buckets && acct.Some? ==>
        var bucketPath := meta.buckets[name].path;
        var objdir := RetrieveObjectDirectory(bucketPath, prefix).0;
        var res := srv.find(EosClient.ListDirRequest(client, AuthOf(acct.value), objdir,
                                                     Some(EosClient.ListDirFilters(None, false))));
        && (res.Err? ==> r == Err(res.error))
        && (res.Ok? ==>
              var listed := Visible(Items(bucketPath, Delivered(res.value.items)));
              && (listed.Err? ==> r == Err(listed.error))
              && (listed.Ok? && res.value.end.Broken? ==> r == Err(res.value.end.err))
              && (listed.Ok? && res.value.end.Eof? ==>
                    r == Ok(ListObjectsResult(name, prefix, delimiter, listed.value))))
    {
      var bucket := meta.GetBucket(name);
      if bucket.Err? {
        return Err(bucket.error);
      }
      var bucketPath := bucket.value.path;
      var (objdir, _) := RetrieveObjectDirectory(bucketPath, prefix);
      if acct.None? {
        return Err(Api(AccessDenied));
      }
      var auth := AuthOf(acct.value);
      var filters := EosClient.ListDirFilters(None, false);
      var delivered, err := EosClient.ListDir(client, auth, objdir, Some(filters), srv.find);
      ghost var res := srv.find(EosClient.ListDirRequest(client, auth, objdir, Some(filters)));
      assert res.Ok? ==> delivered == Delivered(res.value.items);
      var objects := CollectObjects(bucketPath, delivered);
      if objects.Err? {
        return Err(objects.error);
      }
      if err.Some? {
        return Err(err.value);
      }
      r := Ok(ListObjectsResult(name, prefix, delimiter, objects.value));
    }

    /** ListObjectsV2. The delimiter must be "" or "/" and a non-empty prefix
        must end in '/', both checked before the storer is read; the listing
        is recursive exactly when the delimiter is "". With delimiter "/" the
        containers become common prefixes, each once; Contents holds only
        files. Without a logged account the listing runs as uid and gid 0. */
    method ListObjectsV2(name: string, prefix: string, delimiter: string, acct: Option<Account>, srv: Server)
      returns (r: Result<ListObjectsV2Result>)
      requires Valid()
      ensures delimiter != "" && delimiter != "/" ==> r == Err(Api(InvalidRequest))
      ensures prefix != "" && prefix[|prefix| - 1] != '/' ==> r == Err(Api(InvalidRequest))
      ensures (delimiter == "" || delimiter == "/") && (prefix == "" || prefix[|prefix| - 1] == '/') ==>
        && (name !in meta.buckets ==> r == Err(StorerNoSuchBucket))
        && (name in meta.buckets ==>
              var bucketPath := meta.buckets[name].path;
              var auth := AuthOf(if acct.Some? then acct.value else Account(0, 0));
              var res := srv.find(EosClient.ListDirRequest(client, auth, Join(bucketPath, prefix),
                                                           Some(EosClient.ListDirFilters(None, delimiter == ""))));
              && (res.Err? ==> r == Err(res.error))
              && (res.Ok? ==>
                    var g := Grouped(Items(bucketPath, Delivered(res.value.items)), delimiter == "/");
                    && (g.Err? ==> r == Err(g.error))
                    && (g.Ok? && res.value.end.Broken? ==> r == Err(res.value.end.err))
                    && (g.Ok? && res.value.end.Eof? ==>
                          r == Ok(ListObjectsV2Result(name, prefix, delimiter, g.value.objects, g.value.prefixes)))))
    {
      if delimiter != "" && delimiter != "/" {
        return Err(Api(InvalidRequest));
      }
      if prefix != "" && prefix[|prefix| - 1] != '/' {
        return Err(Api(InvalidRequest));
      }
      var recursive := delimiter == "";
      var bucket := meta.GetBucket(name);
      if bucket.Err? {
        return Err(bucket.error);
      }
      var bucketPath := bucket.value.path;
      var folder := Join(bucketPath, prefix);
      var auth := AuthOf(if acct.Some? then acct.value else Account(0, 0));
      var filters := EosClient.ListDirFilters(None, recursive);
      var delivered, err := EosClient.ListDir(client, auth, folder, Some(filters), srv.find);
      ghost var res := srv.find(EosClient.ListDirRequest(client, auth, folder, Some(filters)));
      assert res.Ok? ==> delivered == Delivered(res.value.items);
      var g := GroupObjects(bucketPath, delivered, delimiter == "/");
      if g.Err? {
        return Err(g.error);
      }
      if err.Some? {
        return Err(err.value);
      }
      r := Ok(ListObjectsV2Result(name, prefix, delimiter, g.value.objects, g.value.prefixes));
    }
  }

  /** A bucket created and assigned to a user: as written the user's listing
      is empty, while the corrected listing shows that bucket. */
  method AssignedBucketIsHidden(cfg: Config, client: EosClient.Client, b: Bucket, uid: int, owner: string)
    returns (asWritten: Result<BucketList>, corrected: Result<BucketList>)
    ensures asWritten == Ok(BucketList([], owner, "", ""))
    ensures corrected == Ok(BucketList([EntryOf(b)], owner, "", ""))
  {
    var s := new InMemoryBucketStorer();
    var _ := s.CreateBucket(b);
    var _ := s.AssignBucket(b.name, uid);
    var backend := new EosBackend(cfg, client, s);
    var input := ListBucketsInput(false, owner, "", "", 1000);
    assert s.buckets == map[b.name := b];
    assert s.ListBucketsByUser(uid) == [b.name];
    assert KnownBuckets([b.name], s.buckets) == [b] by {
      assert [b.name][..0] == [];
    }
    assert BucketListOf(input, [b]) == Ok(BucketList([EntryOf(b)], owner, "", "")) by {
      assert ResumeAt([b], "") == [b];
      assert Entries([b], "") == [EntryOf(b)] by {
        assert [b][..0] == [];
      }
    }
    ghost var listed;
    asWritten, listed := backend.ListBucketsAsWritten(input, Some(Account(uid, 0)));
    corrected, listed := backend.ListBuckets(input, Some(Account(uid, 0)));
  }
}
