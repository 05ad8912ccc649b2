/** internal/cmd/root.go: the admin command that creates a bucket. It runs
    three steps, storer create, assign to the owner, remote mkdir, and
    undoes the completed ones when a later step fails. Configuration
    loading, the user lookup and the clock are inputs. */
module Cmd {
  import opened Common
  import opened Text
  import opened GoBuiltins
  import opened Md
  import opened MetaStorer
  import opened MetaMemory
  import EosClient

  /** getUidGid: both ids parsed as base-10 uint64, the uid first. */
  function GetUidGid(uid: string, gid: string): (r: Result<(nat, nat)>)
    ensures r.Ok? <==> ParseUint64(uid).Ok? && ParseUint64(gid).Ok?
    ensures r.Ok? ==> r.value == (ParseUint64(uid).value, ParseUint64(gid).value)
    ensures r.Ok? ==> r.value.0 <= MaxUint64 && r.value.1 <= MaxUint64
    ensures ParseUint64(uid).Err? ==> r == Err(ParseUint64(uid).error)
    ensures ParseUint64(uid).Ok? && ParseUint64(gid).Err? ==> r == Err(ParseUint64(gid).error)
  {
    match ParseUint64(uid)
    case Err(e) => Err(e)
    case Ok(u) =>
      match ParseUint64(gid)
      case Err(e) => Err(e)
      case Ok(g) => Ok((u, g))
  }

  /** The ids of a user, written in decimal, are read back unchanged. */
  lemma GetUidGidRoundTrip(u: nat, g: nat)
    requires u <= MaxUint64 && g <= MaxUint64
    ensures GetUidGid(FormatNat(u), FormatNat(g)) == Ok((u, g))
  {
    ParseFormatRoundTrip(u);
    ParseFormatRoundTrip(g);
  }

  /** The permission bits 0755 of the bucket directory. */
  const BucketDirMode: int := 0x1ED

  /** The create-bucket sequence from getUidGid on, over the in-memory storer.
      `uidText`/`gidText` are the looked-up owner's ids, `now` the clock, and
      `exec` the EOS server answering the mkdir. */
  method CreateBucket(s: InMemoryBucketStorer, c: EosClient.Client, exec: NsRequest -> Result<NsResponse>,
                      uidText: string, gidText: string, name: string, path: string, now: int)
    returns (err: Status)
    requires s.Valid()
    modifies s
    ensures s.Valid()
    ensures GetUidGid(uidText, gidText).Err? ==>
      err == Some(GetUidGid(uidText, gidText).error) && s.buckets == old(s.buckets) && s.users == old(s.users)
    ensures GetUidGid(uidText, gidText).Ok? && name in old(s.buckets) ==>
      err == Some(BucketAlreadyExisting) && s.buckets == old(s.buckets) && s.users == old(s.users)
    ensures GetUidGid(uidText, gidText).Ok? && name !in old(s.buckets) ==>
      var (u, g) := GetUidGid(uidText, gidText).value;
      var owner := Int64(u);
      var mkdir := EosClient.Mkdir(c, EosClient.Auth(u, g), path, BucketDirMode, exec);
      && err == mkdir
      && (mkdir.None? ==>
            && s.buckets == old(s.buckets)[name := Bucket(name, path, now)]
            && s.users == old(s.users)[owner := Lookup(old(s.users), owner) + [name]])
      && (mkdir.Some? ==>
            && s.buckets == old(s.buckets)
            && s.users == old(s.users)[owner := Without(Lookup(old(s.users), owner) + [name], name)])
    ensures s.paths == old(s.paths)
  {
    var ids := GetUidGid(uidText, gidText);
    if ids.Err? {
      return Some(ids.error);
    }
    var (uid, gid) := ids.value;
    var bucket := Bucket(name, path, now);
    err := s.CreateBucket(bucket);
    if err.Some? {
      return;
    }
    // The in-memory storer's AssignBucket never fails, so the rollback of
    // the create after a failed assign cannot happen here.
    var _ := s.AssignBucket(name, Int64(uid));
    err := EosClient.Mkdir(c, EosClient.Auth(uid, gid), bucket.path, BucketDirMode, exec);
    if err.Some? {
      var _ := s.UnassignBucket(bucket.name, Int64(uid));
      var _ := s.DeleteBucket(bucket.name);
      assert s.buckets == old(s.buckets);
    }
  }

  /** The rollback after a failed mkdir restores the owner's list exactly
      when the owner had a list and the bucket was not already on it. */
  lemma RollbackRestoresUsers(users: map<int, seq<string>>, owner: int, name: string)
    requires owner in users && name !in users[owner]
    ensures users[owner := Without(Lookup(users, owner) + [name], name)] == users
  {
    WithoutAppend(users[owner], [name], name);
    WithoutAbsent(users[owner], name);
    assert [name][1..] == [];
    assert Without([name], name) == [];
    assert Without(users[owner] + [name], name) == users[owner];
  }

  /** When the bucket was already on the owner's list, the rollback takes it
      off that list altogether. */
  lemma RollbackDropsEarlierAssignment(users: map<int, seq<string>>, owner: int, name: string)
    requires owner in users && name in users[owner]
    ensures var after := users[owner := Without(Lookup(users, owner) + [name], name)];
      name !in after[owner] && after != users
  {
  }

  /** Ids of 2^63 and more reach the storer as negative owners. */
  lemma LargeUidWraps(u: nat)
    requires TwoTo63 <= u <= MaxUint64
    ensures Int64(u) < 0 && Int64(u) == u - TwoTo64
  {
  }
}
