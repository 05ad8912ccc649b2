/** Shared vocabulary: optional values, results, and the one error type that
    stands for Go's `error` interface throughout the model. */
module Common {

  datatype Option<+T> = None | Some(value: T)

  datatype Result<+T> = Ok(value: T) | Err(error: Error)

  /** The S3 error codes the gateway surfaces through `s3err.GetAPIError`. */
  datatype ApiCode =
    | BucketAlreadyExists
    | AccessDenied
    | InvalidQueryParams
    | InternalError
    | BucketNotEmpty
    | NoSuchKey
    | NoSuchBucket
    | InvalidRequest
    | NotImplemented

  /** Every error value the modelled code can produce or pass on.
      `Crash` is not a returned error: it marks a Go runtime panic
      (a nil dereference, a write into a nil map, a negative capacity). */
  datatype Error =
    | Transport(msg: string)        // returned verbatim by a gRPC or HTTP call
    | NoSuchResource(path: string)  // eos.ErrNoSuchResource
    | Remote(msg: string)           // errors.New(res.Error.Msg) after an Exec call
    | Message(text: string)         // any other errors.New / fmt.Errorf text
    | Wrapped(context: string, inner: Error)  // fmt.Errorf("<context>: %w", inner)
    | Api(code: ApiCode)            // s3err.GetAPIError(code)
    | BucketAlreadyExisting         // meta.ErrBucketAlreadyExisting
    | StorerNoSuchBucket            // meta.ErrNoSuchBucket
    | MappingAlreadyExisting        // registry.ErrMappingAlreadyExisting
    | RegistryNoSuchBucket          // registry.ErrNoSuchBucket
    | ParseSyntax(input: string)    // strconv.ErrSyntax from ParseUint
    | ParseRange(input: string)     // strconv.ErrRange from ParseUint
    | Crash(reason: string)         // a Go runtime panic

  /** The status an `error` return carries: nil or an error. */
  type Status = Option<Error>

  /** A Go map value, which may be the nil map. Reading a nil map yields the
      zero value; writing into it panics. */
  datatype GoMap<K, V> = Nil | Made(entries: map<K, V>)

  /** A value in a `map[string]any` configuration: a string, or anything else. */
  datatype ConfigValue = Str(s: string) | NonString
}
