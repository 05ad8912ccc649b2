/** The bucket-storer vocabulary: the stored record and the choice of a
    storage driver from a configuration map. The two error sentinels are the
    distinct constructors `Error.BucketAlreadyExisting` and `Error.StorerNoSuchBucket`. */
module MetaStorer {
  import opened Common

  /** A bucket: its S3 name, the real path on EOS, and its creation time
      (an opaque timestamp here). */
  datatype Bucket = Bucket(name: string, path: string, createdAt: int)

  /** The zero value Bucket{}. */
  const ZeroBucket: Bucket := Bucket("", "", 0)

  /** The storer implementations New can construct. */
  datatype Driver = MemoryDriver | LocalDriver

  /** The driver choice of meta.New: "driver" defaults to "memory"; only the
      strings "memory" and "local" name a driver. */
  function SelectDriver(c: map<string, ConfigValue>): (r: Result<Driver>)
    ensures r == Ok(MemoryDriver) <==> "driver" !in c || c["driver"] == Str("memory")
    ensures r == Ok(LocalDriver) <==> "driver" in c && c["driver"] == Str("local")
    ensures r.Err? ==> r.error == Message("registry not found")
  {
    var driver := if "driver" in c then c["driver"] else Str("memory");
    if driver == Str("memory") then Ok(MemoryDriver)
    else if driver == Str("local") then Ok(LocalDriver)
    else Err(Message("registry not found"))
  }
}
