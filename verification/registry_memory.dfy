/** The in-memory registry: two maps the methods update in place,
    bucket name -> mapping and uid -> assigned bucket names.
    Locking is left out; every operation runs on its own. */
module RegistryMemory {
  import opened Common
  import opened GoBuiltins
  import opened Registry

  class MemoryRegistry {
    var buckets: map<string, Mapping>
    var users: map<int, seq<string>>

    /** Every mapping is filed under its own bucket name. */
    ghost predicate Valid()
      reads this
    {
      forall n :: n in buckets ==> buckets[n].bucket == n
    }

    /** NewMemoryRegistry: both maps allocated and empty. */
    constructor ()
      ensures Valid()
      ensures buckets == map[] && users == map[]
    {
      buckets := map[];
      users := map[];
    }

    /** An existing bucket name is refused and nothing changes; otherwise the
        mapping is stored under its bucket name, other names untouched. */
    method CreateMapping(m: Mapping) returns (err: Status)
      requires Valid()
      modifies this
      ensures Valid()
      ensures m.bucket in old(buckets) ==> err == Some(MappingAlreadyExisting) && buckets == old(buckets)
      ensures m.bucket !in old(buckets) ==> err == None && buckets == old(buckets)[m.bucket := m]
      ensures err.None? ==> GetMapping(m.bucket) == Ok(m)
      ensures users == old(users)
    {
      if m.bucket in buckets {
        return Some(MappingAlreadyExisting);
      }
      buckets := buckets[m.bucket := m];
      err := None;
    }

    /** The mapping stored for that bucket, or the registry's NoSuchBucket. */
    function GetMapping(bucket: string): (r: Result<Mapping>)
      reads this
      ensures r.Ok? <==> bucket in buckets
      ensures r.Ok? ==> r.value == buckets[bucket]
      ensures r.Err? ==> r.error == RegistryNoSuchBucket
    {
      if bucket in buckets then Ok(buckets[bucket]) else Err(RegistryNoSuchBucket)
    }

    /** Removes that bucket only; never fails, also when it is absent. */
    method DeleteMapping(bucket: string) returns (err: Status)
      requires Valid()
      modifies this
      ensures Valid()
      ensures err == None
      ensures buckets == old(buckets) - {bucket}
      ensures GetMapping(bucket) == Err(RegistryNoSuchBucket)
      ensures users == old(users)
    {
      buckets := buckets - {bucket};
      err := None;
    }

    /** Every stored mapping exactly once, in the map's (unspecified) order. */
    method ListMappings() returns (list: seq<Mapping>)
      requires Valid()
      ensures |list| == |buckets|
      ensures forall i :: 0 <= i < |list| ==> list[i].bucket in buckets && buckets[list[i].bucket] == list[i]
      ensures forall n :: n in buckets ==> buckets[n] in list
      ensures forall i, j :: 0 <= i < j < |list| ==> list[i].bucket != list[j].bucket
    {
      ghost var order;
      list, order := RangeValues(buckets);
    }

    /** Appends the bucket to the uid's list, duplicates kept; other uids untouched. */
    method AssignBucket(bucket: string, uid: int) returns (err: Status)
      modifies this
      ensures err == None
      ensures users == old(users)[uid := Lookup(old(users), uid) + [bucket]]
      ensures buckets == old(buckets)
    {
      users := users[uid := Lookup(users, uid) + [bucket]];
      err := None;
    }

    /** ListBuckets as written: the names are copied into a slice made with
        length 0, so nothing is copied. */
    function ListBucketsAsWritten(uid: int): (r: seq<string>)
      reads this
      ensures r == []
    {
      Copy([], Lookup(users, uid))
    }

    /** ListBuckets with the destination made as long as the source. */
    function ListBuckets(uid: int): (r: seq<string>)
      reads this
      ensures r == Lookup(users, uid)
    {
      var names := Lookup(users, uid);
      Copy(seq(|names|, _ => ""), names)
    }

    /** Removes every occurrence of the bucket from that uid's list only,
        keeping the rest in order; the uid's entry exists afterwards. */
    method UnassignBucket(bucket: string, uid: int) returns (err: Status)
      modifies this
      ensures err == None
      ensures users == old(users)[uid := Without(Lookup(old(users), uid), bucket)]
      ensures bucket !in users[uid]
      ensures buckets == old(buckets)
    {
      users := users[uid := Without(Lookup(users, uid), bucket)];
      err := None;
    }
  }

  /** As written, a bucket assigned to a user is never listed for that user,
      while the corrected listing returns it. */
  method AssignedBucketIsNotListed(bucket: string, uid: int) returns (asWritten: seq<string>, corrected: seq<string>)
    ensures asWritten == []
    ensures corrected == [bucket]
  {
    var r := new MemoryRegistry();
    var _ := r.AssignBucket(bucket, uid);
    asWritten := r.ListBucketsAsWritten(uid);
    corrected := r.ListBuckets(uid);
  }
}
