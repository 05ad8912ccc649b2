/** The in-memory bucket storer: three maps the methods update in place,
    name -> bucket, uid -> assigned bucket names, uid -> default bucket path.
    Locking is left out; every operation runs on its own. */
module MetaMemory {
  import opened Common
  import opened GoBuiltins
  import opened MetaStorer

  /** The panic of a write into a nil map. */
  const NilMapWrite: Error := Crash("assignment to entry in nil map")

  class InMemoryBucketStorer {
    var buckets: map<string, Bucket>
    var users: map<int, seq<string>>
    var paths: GoMap<int, string>

    /** Every bucket is filed under its own name. */
    ghost predicate Valid()
      reads this
    {
      forall n :: n in buckets ==> buckets[n].name == n
    }

    /** NewInMemoryBucketStorer as written: `paths` is left as the nil map. */
    constructor ()
      ensures Valid()
      ensures buckets == map[] && users == map[] && paths == Nil
    {
      buckets := map[];
      users := map[];
      paths := Nil;
    }

    /** The constructor with `paths` allocated like the other two maps. */
    constructor Allocated()
      ensures Valid()
      ensures buckets == map[] && users == map[] && paths == Made(map[])
    {
      buckets := map[];
      users := map[];
      paths := Made(map[]);
    }

    /** An existing name is refused and nothing changes; otherwise the bucket
        is stored under its name and every other name keeps its entry. */
    method CreateBucket(b: Bucket) returns (err: Status)
      requires Valid()
      modifies this
      ensures Valid()
      ensures b.name in old(buckets) ==> err == Some(BucketAlreadyExisting) && buckets == old(buckets)
      ensures b.name !in old(buckets) ==> err == None && buckets == old(buckets)[b.name := b]
      ensures GetBucket(b.name).Ok?
      ensures err.None? ==> GetBucket(b.name) == Ok(b)
      ensures users == old(users) && paths == old(paths)
    {
      if b.name in buckets {
        return Some(BucketAlreadyExisting);
      }
      buckets := buckets[b.name := b];
      err := None;
    }

    /** The stored bucket of that name, or StorerNoSuchBucket. */
    function GetBucket(name: string): (r: Result<Bucket>)
      reads this
      ensures r.Ok? <==> name in buckets
      ensures r.Ok? ==> r.value == buckets[name]
      ensures r.Err? ==> r.error == StorerNoSuchBucket
    {
      if name in buckets then Ok(buckets[name]) else Err(StorerNoSuchBucket)
    }

    /** Removes that name only; never fails, also when the name is absent. */
    method DeleteBucket(name: string) returns (err: Status)
      requires Valid()
      modifies this
      ensures Valid()
      ensures err == None
      ensures buckets == old(buckets) - {name}
      ensures GetBucket(name) == Err(StorerNoSuchBucket)
      ensures users == old(users) && paths == old(paths)
    {
      buckets := buckets - {name};
      err := None;
    }

    /** Every stored bucket exactly once, in the map's (unspecified) order:
        each entry is a stored bucket, each stored bucket is listed, and no
        name appears twice. */
    method ListBuckets() returns (list: seq<Bucket>)
      requires Valid()
      ensures |list| == |buckets|
      ensures forall i :: 0 <= i < |list| ==> list[i].name in buckets && buckets[list[i].name] == list[i]
      ensures forall n :: n in buckets ==> buckets[n] in list
      ensures forall i, j :: 0 <= i < j < |list| ==> list[i].name != list[j].name
    {
      ghost var order;
      list, order := RangeValues(buckets);
    }

    /** Appends the name to the uid's list, duplicates kept; other uids untouched. */
    method AssignBucket(name: string, uid: int) returns (err: Status)
      modifies this
      ensures err == None
      ensures users == old(users)[uid := Lookup(old(users), uid) + [name]]
      ensures buckets == old(buckets) && paths == old(paths)
    {
      users := users[uid := Lookup(users, uid) + [name]];
      err := None;
    }

    /** ListBucketsByUser as written: the names are copied into a slice made
        with length 0, so nothing is copied. */
    function ListBucketsByUserAsWritten(uid: int): (r: seq<string>)
      reads this
      ensures r == []
    {
      Copy([], Lookup(users, uid))
    }

    /** ListBucketsByUser with the destination made as long as the source. */
    function ListBucketsByUser(uid: int): (r: seq<string>)
      reads this
      ensures r == Lookup(users, uid)
    {
      var names := Lookup(users, uid);
      Copy(seq(|names|, _ => ""), names)
    }

    /** Removes every occurrence of the name from that uid's list, keeping the
        rest in order; the uid's entry exists afterwards even if it did not. */
    method UnassignBucket(name: string, uid: int) returns (err: Status)
      modifies this
      ensures err == None
      ensures users == old(users)[uid := Without(Lookup(old(users), uid), name)]
      ensures name !in users[uid]
      ensures buckets == old(buckets) && paths == old(paths)
    {
      users := users[uid := Without(Lookup(users, uid), name)];
      err := None;
    }

    /** The uid's default path; "" when none was stored (or `paths` is nil). */
    function GetDefaultBucketPath(uid: int): (r: string)
      reads this
      ensures paths.Nil? ==> r == ""
      ensures paths.Made? && uid !in paths.entries ==> r == ""
      ensures paths.Made? && uid in paths.entries ==> r == paths.entries[uid]
    {
      match paths
      case Nil => ""
      case Made(m) => if uid in m then m[uid] else ""
    }

    /** Stores the uid's default path; on the nil map the write panics. */
    method StoreDefaultBucketPath(uid: int, path: string) returns (err: Status)
      modifies this
      ensures old(paths).Nil? ==> err == Some(NilMapWrite) && paths == Nil
      ensures old(paths).Made? ==> err == None && paths == Made(old(paths).entries[uid := path])
      ensures err == None ==> GetDefaultBucketPath(uid) == path
      ensures buckets == old(buckets) && users == old(users)
    {
      match paths
      case Nil =>
        err := Some(NilMapWrite);
      case Made(m) =>
        paths := Made(m[uid := path]);
        err := None;
    }
  }

  /** As written, a bucket assigned to a user is never listed for that user,
      while the corrected listing returns it. */
  method AssignedBucketIsNotListed(name: string, uid: int) returns (asWritten: seq<string>, corrected: seq<string>)
    ensures asWritten == []
    ensures corrected == [name]
  {
    var s := new InMemoryBucketStorer();
    var _ := s.AssignBucket(name, uid);
    asWritten := s.ListBucketsByUserAsWritten(uid);
    corrected := s.ListBucketsByUser(uid);
  }

  /** As written, a fresh storer cannot store a default path at all. */
  method FreshStorerCannotStorePath(uid: int, path: string) returns (err: Status, got: string)
    ensures err == Some(NilMapWrite)
    ensures got == ""
  {
    var s := new InMemoryBucketStorer();
    err := s.StoreDefaultBucketPath(uid, path);
    got := s.GetDefaultBucketPath(uid);
  }

  /** With `paths` allocated, a stored default path is read back. */
  method StoredPathIsReadBack(uid: int, path: string) returns (err: Status, got: string)
    ensures err == None
    ensures got == path
  {
    var s := new InMemoryBucketStorer.Allocated();
    err := s.StoreDefaultBucketPath(uid, path);
    got := s.GetDefaultBucketPath(uid);
  }
}
