/** The registry vocabulary: the bucket-to-path mapping and the choice of a
    registry driver. The two error sentinels are the distinct constructors
    `Error.MappingAlreadyExisting` and `Error.RegistryNoSuchBucket`. */
module Registry {
  import opened Common

  /** A mapping of a bucket name to its real path on EOS, with its creation
      time (an opaque timestamp here). */
  datatype Mapping = Mapping(bucket: string, path: string, createdAt: int)

  /** The zero value Mapping{}. */
  const ZeroMapping: Mapping := Mapping("", "", 0)

  /** The registry implementations New can construct. */
  datatype Driver = MemoryDriver | LocalDriver

  /** The driver choice of registry.New: "driver" defaults to "memory"; only
      the strings "memory" and "local" name a driver. */
  function SelectDriver(c: map<string, ConfigValue>): (r: Result<Driver>)
    ensures r == Ok(MemoryDriver) <==> "driver" !in c || c["driver"] == Str("memory")
    ensures r == Ok(LocalDriver) <==> "driver" in c && c["driver"] == Str("local")
    ensures r.Err? ==> r.error == Message("registry not found")
  {
    var driver := if "driver" in c then c["driver"] else Str("memory");
    if driver == Str("memory") then Ok(MemoryDriver)
    else if driver == Str("local") then Ok(LocalDriver)
    else Err(Message("registry not found"))
  }
}
