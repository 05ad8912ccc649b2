# eoss3 in Dafny

eoss3 is an S3 gateway backend for the EOS storage system. S3 requests (list buckets,
create or delete a bucket, put, head, get, list or delete objects, read a bucket policy)
are translated into EOS calls:

- gRPC namespace requests: stat, find, mkdir, rmdir, rm;
- HTTP transfers that follow EOS's redirects.

This project models that translation and proves what each operation returns.

The repository contains two backends.

- **The multi-user backend** (`eoss3/eoss3.go`).
  - It keeps bucket metadata in a bucket storer.
  - Each request is made as the logged-in account.
  - It hides EOS's version folders and atomic-upload files from every listing.
- **The legacy backend** (`eoss3.go`, with `http.go`).
  - Buckets are the directories right below one mount directory.
  - Every request is made with the single identity in its configuration.

The multi-user backend reaches EOS through the EOS client (`eos/client.go`) and keeps its
buckets in the bucket storer that `meta.New` selects; by default that is the in-memory
storer (`meta/memory.go`). The legacy backend makes its own gRPC calls and its HTTP
transfers through `http.go`, and keeps no bucket store. The `create-bucket` command
(`internal/cmd/root.go`) writes into the selected storer and makes the directory through
the EOS client. The in-memory registry (`registry/memory.go`) is modelled on its own;
neither backend nor the command uses it.

How the model is built:

- External services appear as parameters: EOS's gRPC service, the HTTP server's replies
  and the clock.
- The in-memory stores are classes. Their maps are fields, and their methods update them
  in place.
- Listings driven by a callback or a stream are methods with loops. Each loop is proved
  equal to a specification function, and the promised properties are proved about that
  function.
- Go's own behaviour is written out:
  - writing to a nil map panics;
  - dereferencing a nil pointer panics;
  - `make` with a negative capacity panics;
  - uint64/int64 conversions wrap around.

  A panic is the error value `Crash`.

Modules, one per source file, plus shared vocabulary:

- `Common`: Option, Result, the error values.
- `Text`, `FilePath`, `GoBuiltins`: the parts of Go's `strings`, `strconv`, `path/filepath`
  and builtins that are used.
- `Md`: the EOS metadata and request records.
- `EosUtils`, `EosErrors`, `EosClient`: the EOS client package.
- `Http`: the HTTP requests and the redirect rules shared by both clients.
- `LegacyHttp`: `http.go`.
- `MetaStorer`, `MetaMemory`, `Registry`, `RegistryMemory`: the metadata and registry
  packages.
- `Cmd`: the create-bucket command.
- `Backend`: `eoss3/eoss3.go`.
- `LegacyBackend`: `eoss3.go`.

The multi-user `CreateBucket` writes the bucket into the storer before the EOS `mkdir` and
does not undo that write when the `mkdir` fails; `Backend.EosBackend.CreateBucket` states
exactly that.

## Model

| member | source | states |
|---|---|---|
| Backend.Validate | eoss3/eoss3.go:44-58 | The configuration is valid iff grpc_url, http_url and authkey are all set; otherwise the error names the first missing setting, in that order |
| Backend.HiddenIffMarker | eoss3/eoss3.go:94-96 | A key is hidden exactly when the version-folder or the atomic-file marker occurs in it; a key without '#' is never hidden |
| Backend.IndexOfName | eoss3/eoss3.go:101-106 | The index of the first bucket whose name is the continuation token, or -1 when no bucket has that name |
| Backend.ResumeAt | eoss3/eoss3.go:101-106 | The listing resumes at a suffix of the buckets: it starts at the token's bucket when that bucket exists and is the whole list otherwise |
| Backend.Entries | eoss3/eoss3.go:108-122 | Every listed entry's name starts with the prefix, and there are no more entries than buckets |
| Backend.EntriesExact | eoss3/eoss3.go:108-122 | A bucket is listed iff its name starts with the prefix, in both directions |
| Backend.PrepareListBucketResult | eoss3/eoss3.go:98-123 | A negative maximum panics in make; otherwise the result is the page of the matching buckets from the token on |
| Backend.PageBounds | eoss3/eoss3.go:108-122 | A page holds at most max-1 entries; the next token is the name of the max-th bucket, or empty when the listing ended |
| Backend.PageExcludesToken | eoss3/eoss3.go:108-122 | With distinct names, the bucket named by the next token is not on the page that returns it |
| Backend.NextPageContinues | eoss3/eoss3.go:101-122 | Resuming at the returned token starts the next scan exactly at the bucket that ended this page, and this page followed by the matches from there is every match, so nothing is lost or repeated |
| Backend.PageOfOneRepeats | eoss3/eoss3.go:101-122 | With max 1 the page is empty, and resuming with its token yields the same page again |
| Backend.RetrieveObjectDirectory | eoss3/eoss3.go:459-462 | The new prefix is the slash-free tail of the prefix, and the directory is the bucket path joined with everything before it |
| Backend.RetrieveBelowBucket | eoss3/eoss3.go:448-462 | For a prefix that is a directory path plus a leaf, the directory is that directory below the bucket and the new prefix is the leaf |
| Backend.RetrieveExampleLeaf | eoss3/eoss3.go:452-458 | The documented example cases hold (a bare leaf; a leaf after a directory ending in '/') |
| Backend.RetrieveBelowBucketJoined | eoss3/eoss3.go:456-458 | A nested prefix yields the directory joined element by element below the bucket |
| Backend.MdToObject | eoss3/eoss3.go:464-493 | Conversion fails (a nil dereference) exactly when the entry's type-specific metadata is missing; otherwise the key, size, etag, owner and time come from that metadata |
| Backend.ObjectKeyBelow | eoss3/eoss3.go:464-493 | An entry at bucket/rel gets the key rel |
| Backend.PolicySidAt | eoss3/eoss3.go:265-285 | The statement id is written verbatim right after the head |
| Backend.PolicyNamesResources | eoss3/eoss3.go:265-285 | The policy names the effect, the user as principal, and the bucket and bucket/* as resources |
| Backend.GetBucketPolicy | eoss3/eoss3.go:287-307 | No logged-in account gives AccessDenied; otherwise the policy is Allow or Deny depending on whether the bucket is assigned to the user |
| Backend.AllowDiffersFromDeny | eoss3/eoss3.go:287-307 | The Allow and Deny policies for the same user and bucket differ |
| Backend.Items | eoss3/eoss3.go:517-523 | Every delivered entry is converted, one item per entry, in order |
| Backend.Visible | eoss3/eoss3.go:517-523 | Listed objects are never hidden, there are no more of them than entries, and a failure is the failure of some entry |
| Backend.VisibleCrash | eoss3/eoss3.go:517-523 | The listing fails iff some entry fails to convert |
| Backend.VisibleExact | eoss3/eoss3.go:517-523 | An object is listed iff some entry converts to it and is not hidden |
| Backend.Grouped | eoss3/eoss3.go:585-608 | With grouping, prefixes are distinct and not hidden; without it there are none; objects are never hidden |
| Backend.GroupedObjects | eoss3/eoss3.go:585-608 | The objects of a grouped listing are the visible file entries, in order |
| Backend.GroupedPrefixes | eoss3/eoss3.go:585-608 | A prefix is listed iff some visible directory entry has it as key |
| Backend.PrefixesEndInSlash | eoss3/eoss3.go:585-608 | Every common prefix ends in '/' |
| Backend.Delivered | eos/client.go:169-186 | The entries the client passes to the callback are the stream without its first entry, which is the directory itself |
| Backend.CollectObjects | eoss3/eoss3.go:511-527 | The callback loop's result equals the Visible specification |
| Backend.GroupObjects | eoss3/eoss3.go:579-617 | The grouping callback loop's result equals the Grouped specification |
| Backend.KnownBuckets | eoss3/eoss3.go:143-160 | The user's buckets are looked up in the storer, and at most as many are found as names given |
| Backend.KnownBucketsExact | eoss3/eoss3.go:143-160 | A bucket is returned iff one of the user's names is stored with that bucket |
| Backend.BucketListOf | eoss3/eoss3.go:98-123 | The makeslice panic exactly for a negative maximum; otherwise fewer entries than the maximum, each with the prefix and taken from one of the buckets, the caller's owner and prefix, and a token that is "" or a bucket's name |
| Backend.PageDrawnFrom | eoss3/eoss3.go:98-123 | Every entry of a page, and a non-empty token, come from a bucket of the list being paged |
| Backend.EosBackend.constructor | eoss3/eoss3.go:68-88 | The backend holds its configuration, client and storer |
| Backend.EosBackend.ListBuckets | eoss3/eoss3.go:130-173 | Corrected: an admin lists every stored bucket once; a user without an account is refused; a user lists their assigned known buckets |
| Backend.EosBackend.ListBucketsAsWritten | eoss3/eoss3.go:130-173 | As written: the admin listing is the same; a user without an account is refused; a user is shown an empty page with no token, whatever is assigned to them |
| Backend.EosBackend.BucketsNamed | eoss3/eoss3.go:153-159 | The stored buckets the names denote, in the names' order, skipping unknown names |
| Backend.AssignedBucketIsHidden | eoss3/eoss3.go:130-173 | A bucket created and assigned to a user is missing from that user's listing as written, and is the whole corrected listing |
| Backend.EosBackend.CreateBucket | eoss3/eoss3.go:182-224 | An existing name, no account, or no default path are refused and the store is unchanged; otherwise the bucket is stored and the result is the mkdir status |
| Backend.EosBackend.DeleteBucket | eoss3/eoss3.go:226-263 | Only an empty directory bucket is removed from EOS and from the store; every error leaves the store unchanged |
| Backend.EosBackend.PutObject | eoss3/eoss3.go:309-361 | Unknown bucket and no account are refused without any upload; otherwise the result is the upload's outcome, and with MD5 on the ETag is the body's digest once a request carried the body, or the MD5 of no bytes when the first body-less PUT was accepted |
| Backend.UploadReadsBodyIffRedirected | eos/client.go:318-357 | The upload reads the body exactly when it sent more than one request, that is, when EOS redirected it |
| Backend.EosBackend.HeadObject | eoss3/eoss3.go:363-399 | A missing entry or a directory gives NoSuchKey; a file gives its size, etag and modification time |
| Backend.EosBackend.GetObject | eoss3/eoss3.go:401-446 | No account and unknown bucket are refused; otherwise the download's verdict is the result, and the trace is the requests sent |
| Backend.EosBackend.DeleteObject | eoss3/eoss3.go:632-658 | Unknown bucket and no account are refused; otherwise the status is the removal's, under the logged-in identity |
| Backend.EosBackend.ListObjects | eoss3/eoss3.go:495-539 | Unknown bucket and no account are refused; otherwise the contents are the visible objects of the resolved directory |
| Backend.EosBackend.ListObjectsV2 | eoss3/eoss3.go:549-626 | A delimiter other than "" or '/' or a prefix not ending in '/' is InvalidRequest; otherwise the grouped listing of the prefix's directory |
| EosClient.Username | eos/client.go:30-36 | The looked-up user name, or "<unknown>" when the lookup fails |
| EosClient.Validate | eos/client.go:61-81 | The client configuration is valid iff the HTTP URL is set and parses, the gRPC URL is set and parses, and the auth key is set; the first failing check, in that order, gives its own message |
| EosClient.NewClient | eos/client.go:84-110 | A client is built iff the configuration is valid and the dial succeeds; it keeps the HTTP URL and the auth key |
| EosClient.Stat | eos/client.go:112-134 | A transport error is passed on; an empty stream is NoSuchResource(path); otherwise the first entry |
| EosClient.StatFailureIsNoSuchResource | eos/client.go:124-133 | Once the call succeeds, stat fails iff the stream is empty, and then only with NoSuchResource |
| EosClient.ListDirRequest | eos/client.go:151-162 | The find request is for the directory, at depth 1, with a name-prefix selection iff filters are given |
| EosClient.ListDirIgnoresRecursive | eos/client.go:136-162 | The Recursive filter does not change the request |
| EosClient.ListDir | eos/client.go:140-187 | The callback receives every streamed entry after the first, in order; stream and call errors are passed on |
| EosClient.ExecStatus | eos/client.go:206-210 | A call error is passed on; a nonzero code is a remote error with EOS's message; no error or code 0 is success |
| EosClient.Mkdir | eos/client.go:189-211 | The status of an mkdir request for the path, mode and identity |
| EosClient.Rmdir | eos/client.go:223-243 | The status of an rmdir request for the path and identity |
| EosClient.RemoveAsWritten | eos/client.go:245-264 | Remove as written: a reply without an error record is a nil dereference |
| EosClient.Remove | eos/client.go:245-264 | Remove with the nil check: a reply without an error record is success |
| EosClient.RemoveAsWrittenDiffers | eos/client.go:259 | The two agree on every reply except one without an error record |
| EosClient.RemoveAsWrittenPanicsOnNilError | eos/client.go:259 | The input that shows the nil dereference |
| EosClient.BuildFullHttpUrl | eos/client.go:266-275 | The URL contains no '#', and unescaping it gives the raw URL with uid and gid |
| EosClient.BuildFullHttpUrlWithoutHash | eos/client.go:266-275 | Without '#' in the base or the path, escaping changes nothing |
| EosClient.Download | eos/client.go:277-316 | The download sends the redirect chain of a GET to the built URL; the result is that chain's outcome |
| EosClient.RedirectedPut | eos/client.go:326-359 | A redirected PUT goes to the location, has a body and sets Content-Length to the length |
| EosClient.PutVerdict | eos/client.go:326-359 | The upload stops exactly when the reply is not a redirect that can be followed |
| EosClient.PutLoopAttempts | eos/client.go:326-359 | Every request after the first goes to the location of the previous reply, and every one is a PUT with the gateway headers |
| EosClient.PutLoopExhausted | eos/client.go:326-359 | The outcome stays undecided exactly when every reply was a followed 307, and then one request went out per reply |
| EosClient.PutLoopOutcome | eos/client.go:326-359 | A decided outcome is the verdict on the last reply consumed |
| EosClient.FollowPut | eos/client.go:326-359 | The loop's result and sent requests equal the PutLoop specification |
| EosClient.Upload | eos/client.go:318-360 | The upload sends the PUT redirect chain to the built URL; the result is that chain's outcome |
| Http.NewRequest | eos/client.go:285-315 | A new request has the given method, URL and body flag, and no headers |
| Http.WithGatewayHeaders | eos/client.go:285-315 | Adding the gateway headers keeps method, URL and body and sets the auth key and user headers |
| Http.WithGatewayHeadersKeeps | eos/client.go:285-315 | Any other header keeps its value |
| Http.GetVerdict | eos/client.go:285-315 | The download stops exactly when the reply is not a redirect that can be followed |
| Http.GetLoopAttempts | http.go:65-88 | Each GET after the first goes to the previous reply's location, with the gateway headers |
| Http.GetLoopExhausted | http.go:65-88 | The outcome stays undecided exactly when every reply was a followed redirect, and then one request went out per reply |
| Http.GetLoopOutcome | http.go:65-94 | A decided outcome is the verdict on the last reply consumed |
| Http.FollowGet | http.go:57-96 | The loop's result and sent requests equal the GetLoop specification |
| LegacyHttp.Validate | http.go:30-40 | The HTTP configuration is valid iff the server URL and the auth key are set; the first missing one is named |
| LegacyHttp.BuildFullURL | http.go:98-107 | The URL contains no '#', and unescaping it gives the raw URL with uid and gid |
| LegacyHttp.BuildFullURLAgrees | http.go:98-107 | The legacy URL and the client's URL coincide for the same server, identity and path |
| LegacyHttp.Get | http.go:57-96 | The legacy GET follows the same redirect chain as the client's download |
| Cmd.GetUidGid | internal/cmd/root.go:90-102 | The uid and gid are the parsed 64-bit numbers; the uid's parse error comes first |
| Cmd.GetUidGidRoundTrip | internal/cmd/root.go:90-102 | Any uid and gid written in decimal are read back unchanged |
| Cmd.CreateBucket | internal/cmd/root.go:104-162 | A bad uid/gid or an existing bucket change nothing; otherwise the bucket is stored and assigned, and a failed mkdir rolls back the bucket and the assignment |
| Cmd.RollbackRestoresUsers | internal/cmd/root.go:155-159 | The rollback restores the user's bucket list when the bucket was not already assigned |
| Cmd.RollbackDropsEarlierAssignment | internal/cmd/root.go:155-159 | If it was already assigned, the rollback removes the earlier assignment too |
| Cmd.LargeUidWraps | internal/cmd/root.go:137-149 | A uid of 2^63 or more turns negative when converted to the storer's int |
| MetaMemory.InMemoryBucketStorer.constructor | meta/memory.go:15-20 | A new storer has no buckets, no users and a nil path map |
| MetaMemory.InMemoryBucketStorer.Allocated | meta/memory.go:15-20 | The corrected constructor also allocates the path map |
| MetaMemory.InMemoryBucketStorer.CreateBucket | meta/memory.go:22-36 | An existing name is refused unchanged; otherwise the bucket is added and can be read back |
| MetaMemory.InMemoryBucketStorer.GetBucket | meta/memory.go:38-47 | The stored bucket iff the name is stored, otherwise ErrNoSuchBucket |
| MetaMemory.InMemoryBucketStorer.DeleteBucket | meta/memory.go:49-55 | The name is removed and no longer found; nothing else changes |
| MetaMemory.InMemoryBucketStorer.ListBuckets | meta/memory.go:57-66 | Every stored bucket exactly once, and nothing else |
| MetaMemory.InMemoryBucketStorer.AssignBucket | meta/memory.go:68-74 | The name is appended to the user's list |
| MetaMemory.InMemoryBucketStorer.ListBucketsByUserAsWritten | meta/memory.go:76-84 | As written: copying into a zero-length slice always yields the empty list |
| MetaMemory.InMemoryBucketStorer.ListBucketsByUser | meta/memory.go:76-84 | Corrected: the user's assigned names |
| MetaMemory.InMemoryBucketStorer.UnassignBucket | meta/memory.go:86-95 | Every occurrence of the name is removed from the user's list, and nothing else |
| MetaMemory.InMemoryBucketStorer.GetDefaultBucketPath | meta/memory.go:97-102 | The stored path, or "" when there is none or the map is nil |
| MetaMemory.InMemoryBucketStorer.StoreDefaultBucketPath | meta/memory.go:104-110 | Into a nil map the write panics; otherwise the path is stored and read back |
| MetaMemory.AssignedBucketIsNotListed | meta/memory.go:76-84 | After assigning a bucket, the as-written listing is empty and the corrected one holds the bucket |
| MetaMemory.FreshStorerCannotStorePath | meta/memory.go:15-20 | On a freshly made storer, storing a default path panics |
| MetaMemory.StoredPathIsReadBack | meta/memory.go:104-110 | On the corrected storer, a stored path is read back |
| MetaStorer.SelectDriver | meta/storer.go:41-55 | No driver or "memory" chooses the in-memory storer, "local" the local one; anything else is an error |
| RegistryMemory.MemoryRegistry.constructor | registry/memory.go:14-19 | A new registry is empty |
| RegistryMemory.MemoryRegistry.CreateMapping | registry/memory.go:21-35 | An existing bucket is refused unchanged; otherwise the mapping is added and read back |
| RegistryMemory.MemoryRegistry.GetMapping | registry/memory.go:37-46 | The stored mapping iff the bucket is mapped, otherwise ErrNoSuchBucket |
| RegistryMemory.MemoryRegistry.DeleteMapping | registry/memory.go:48-54 | The mapping is removed and no longer found |
| RegistryMemory.MemoryRegistry.ListMappings | registry/memory.go:56-65 | Every mapping exactly once, and nothing else |
| RegistryMemory.MemoryRegistry.AssignBucket | registry/memory.go:67-73 | The bucket is appended to the user's list |
| RegistryMemory.MemoryRegistry.ListBucketsAsWritten | registry/memory.go:75-83 | As written: always the empty list |
| RegistryMemory.MemoryRegistry.ListBuckets | registry/memory.go:75-83 | Corrected: the user's assigned buckets |
| RegistryMemory.MemoryRegistry.UnassignBucket | registry/memory.go:85-93 | Every occurrence of the bucket is removed from the user's list |
| RegistryMemory.AssignedBucketIsNotListed | registry/memory.go:75-83 | After assigning a bucket, the as-written listing is empty and the corrected one holds the bucket |
| Registry.SelectDriver | registry/registry.go:37-51 | No driver or "memory" chooses the in-memory registry, "local" the local one; anything else is an error |
| EosUtils.IsVersionFolderIff | eos/utils.go:6-8 | A path is a version folder iff the version marker occurs in it |
| EosUtils.IsAtomicFileIff | eos/utils.go:11-13 | A path is an atomic file iff the atomic marker occurs in it |
| EosUtils.MarkersSurviveExtension | eos/utils.go:6-13 | A marked path stays marked inside a longer path |
| EosUtils.VersionFolderParent | eos/utils.go:6-8 | Everything below a version folder is a version folder too |
| EosUtils.NoHashNoMarker | eos/utils.go:6-13 | A path without '#' carries no marker |
| EosUtils.EscapedNeverHidden | eos/utils.go:6-13 | After '#' is escaped, a path carries no marker |
| EosErrors.ErrorText | eos/errors.go:9-11 | The message is the fixed prefix followed by the path |
| EosErrors.ErrorTextInjective | eos/errors.go:9-11 | Different paths give different messages |
| Text.EscapeHashIdempotent | eos/client.go:273 | Escaping '#' twice is escaping once |
| Text.UnescapeEscapeHash | eos/client.go:273 | Escaping '#' loses nothing for paths that do not spell "%23" already |
| Text.ParseFormatRoundTrip | internal/cmd/root.go:91-101 | ParseUint of a 64-bit number's decimal spelling gives it back |
| GoBuiltins.Copy | meta/memory.go:81-82 | Go's copy: the destination's length, source elements where they fit |
| GoBuiltins.CopyIntoEmpty | meta/memory.go:80-82 | Copying into an empty slice yields the empty slice |
| GoBuiltins.Without | meta/memory.go:90-92 | DeleteFunc on equality: exactly the other elements remain |
| GoBuiltins.WithoutCounts | meta/memory.go:90-92 | It drops every occurrence of the name and keeps every other element as often as before |
| GoBuiltins.RangeValues | meta/memory.go:61-63 | Ranging over a map yields each value once, in some key order |
| GoBuiltins.ConversionsRoundTrip | internal/cmd/root.go:137-149 | int64/uint64 conversions are inverse on their ranges |
| LegacyBackend.Config.constructor | eoss3.go:44-66 | The configuration holds the given settings |
| LegacyBackend.Config.Missing | eoss3.go:44-66 | The configuration is complete iff grpc_url, http_url, authkey and username are set; otherwise the first missing one is named |
| LegacyBackend.Config.Validate | eoss3.go:44-66 | The error is the first missing setting, and a valid configuration with no mount directory gets "/" |
| LegacyBackend.New | eoss3.go:75-103 | Validation errors are passed on and a dial error is wrapped; a backend is made iff both succeed, and its mount directory is not empty |
| LegacyBackend.HttpConfigValid | eoss3.go:75-103 | A complete configuration always passes the HTTP client's validation |
| LegacyBackend.VersionNameIsVersionFolder | eoss3.go:111-113 | A name starting with the version marker is a version folder |
| LegacyBackend.VersionNameNarrower | eoss3.go:111-113 | The legacy check only looks at the start of the name: a marker after the first character is not excluded |
| LegacyBackend.BucketPathBelowMount | eoss3.go:221-280 | A bucket's directory is the bucket name joined below the mount directory |
| LegacyBackend.DirsExact | eoss3.go:136-173 | A directory record is kept iff some streamed entry is a directory with that record |
| LegacyBackend.BucketsExact | eoss3.go:136-173 | A bucket is listed iff some directory has its name and time and its name matches and is not a version folder |
| LegacyBackend.BucketsAfterOwnEntry | eoss3.go:136-173 | The mount directory's own entry, coming first among directories, is skipped |
| LegacyBackend.FilterBuckets | eoss3.go:136-173 | The listing loop's result equals the BucketsOf specification |
| LegacyBackend.FileObjectAgrees | eoss3.go:510-536 | A file entry becomes the same object as in the multi-user backend |
| LegacyBackend.FileMds | eoss3.go:510-536 | The file records of the stream, in order |
| LegacyBackend.FileMdsExact | eoss3.go:510-536 | A file record is kept iff some streamed entry is a file with that record |
| LegacyBackend.FilesExact | eoss3.go:510-536 | An object is listed iff it is the object of some streamed file |
| LegacyBackend.FileKeyBelow | eoss3.go:523 | A file at dir/rel gets the key rel |
| LegacyBackend.ListedKeyBelowMount | eoss3.go:475-536 | A file below a bucket under the mount directory is listed under its path below the bucket |
| LegacyBackend.CollectFiles | eoss3.go:510-536 | The collection loop's result equals the Files specification |
| LegacyBackend.RmErrorNamesCode | eoss3.go:576-578 | The removal error text contains EOS's code and message |
| LegacyBackend.EosBackend.constructor | eoss3.go:75-103 | The backend holds the configuration |
| LegacyBackend.EosBackend.Identity | eoss3.go:211-219 | Requests carry the configured uid and gid as uint64 (negative values wrap) and the auth key |
| LegacyBackend.EosBackend.BucketVerdict | eoss3.go:240-247 | A call error is passed on; an EOS error with a nonzero code becomes InternalError |
| LegacyBackend.EosBackend.CreateBucket | eoss3.go:221-249 | A recursive mkdir of the bucket directory with mode 0750, judged by BucketVerdict |
| LegacyBackend.EosBackend.DeleteBucket | eoss3.go:256-280 | An rmdir of the bucket directory, judged by BucketVerdict |
| LegacyBackend.EosBackend.BucketDirectory | eoss3.go:221-280 | Create and delete both act on mount/bucket |
| LegacyBackend.EosBackend.Stat | eoss3.go:377-404 | Call errors are passed on; an empty stream is NoSuchBucket or NoSuchKey; otherwise the first entry |
| LegacyBackend.EosBackend.ListBuckets | eoss3.go:115-176 | A depth-1 find of the mount directory; a call error is InternalError, a broken stream its error, otherwise the filtered buckets |
| LegacyBackend.EosBackend.HeadObject | eoss3.go:406-427 | A directory or missing metadata is NoSuchKey; a file gives its size, etag and time |
| LegacyBackend.EosBackend.HeadObjectLength | eoss3.go:406-427 | The length is the file size below 2^63 and wraps negative above |
| LegacyBackend.EosBackend.GetObject | eoss3.go:429-455 | Stat errors are passed on; a file is fetched through the legacy HTTP client and the result is that chain's verdict |
| LegacyBackend.EosBackend.ListObjects | eoss3.go:472-539 | Stat the bucket, find below it with unlimited depth, and list every streamed file with its key relative to the bucket |
| LegacyBackend.EosBackend.DeleteObjectAsWritten | eoss3.go:550-581 | As written: a reply without an error record is a nil dereference |
| LegacyBackend.EosBackend.DeleteObject | eoss3.go:550-581 | Corrected: such a reply is success; a nonzero code gives "got error (code): msg" |
| LegacyBackend.EosBackend.DeleteObjectAsWrittenDiffers | eoss3.go:576 | The two agree except on a successful reply without an error record, where only the as-written one panics |

## Left out

- Transport: gRPC, net/http and TLS are replaced by functions from request to reply, passed as parameters. An HTTP exchange is a finite list of replies.
- EosClient.Download, EosClient.Upload, LegacyHttp.Get and Http.FollowGet: a redirect chain longer than the given replies ends undecided (None). Go would keep following it.
- Response bodies, streaming readers and their Close are not modelled. A download yields its length, not its bytes.
- url.Parse, user lookup, the clock and MD5 are parameters:
  - url.Parse is a function returning an optional error;
  - user lookup is a function from uid to name;
  - `now` is an int;
  - the MD5 of the whole body is given as a string (`digest`).
- Times (mtime, ctime) are plain integers. Their second/nanosecond structure and formatting are not modelled.
- Locking: the stores' mutexes and all concurrency are not modelled. Every method runs alone.
- eoss3/backend.go, meta/local.go and plugin.go are not part of this model:
  - the first holds only NotImplemented stubs;
  - the second is a JSON file store;
  - the third is a plugin shim.

  SelectObjectContent and the other NotImplemented operations of both backends are left out for the same reason.
- Backend.EosBackend.DeleteObject: the source calls Remove with an extra argument at eoss3/eoss3.go:653. The model calls the three-argument, corrected Remove.
- Backend.EosBackend.PutObject: a request that carries the body is taken to read all of it, so the hashing reader sees either the whole body or nothing; partial reads are not modelled.
- Backend.EosBackend.ListObjects: the `fileprefix` the code computes and never uses is left out.
- EosClient.ListDirFilters: the client's filter type declares only Prefix (eos/client.go:136-138), while the ListObjectsV2 call at eoss3/eoss3.go:610-612 also sets a Recursive field. The model adds that field so the call can be written. The client's ListDir never reads it and always asks for depth 1, so the "recursive" listing promised for an empty delimiter is never requested (see EosClient.ListDirIgnoresRecursive).
- Backend.GetBucketPolicy: IsAssigned is a parameter, because the BucketStorer interface declares it (meta/storer.go:28) but the in-memory storer does not implement it.
- Cmd.CreateBucket: the rollback of a failed AssignBucket is not modelled, because the in-memory AssignBucket never fails.
- Backend.EosBackend.ListBuckets: a user's names come from the corrected storer listing, so the user sees their assigned buckets; the source, with the in-memory storer, shows them none (see Backend.EosBackend.ListBucketsAsWritten and the eoss3/eoss3.go:149 row under Findings).
- LegacyBackend.BucketPathBelowMount: proved for a mount directory with at least one element. The root mount "/" is not covered.
- LegacyBackend.New: the HTTP client's validation is not a separate branch, because LegacyBackend.HttpConfigValid shows it cannot fail after Config.Validate.
- LegacyBackend.EosBackend.GetObject: like the code, it does not check that the entry is a file; only missing file metadata is refused.
- LegacyBackend.EosBackend.ListObjects: like the code, it does not skip the bucket's own entry. Directories are dropped because they carry no file metadata.
- The HTTP client's own redirect following in http.go is modelled by the same explicit loop as the EOS client's.

## Findings

| source | as written | input that shows it | evidently intended | confidence | as-written member | corrected member |
|---|---|---|---|---|---|---|
| meta/memory.go:76-84 | copies the user's buckets into a slice made with length 0, so nothing is copied | AssignBucket("b", 1) then ListBucketsByUser(1) gives [] | the user's assigned buckets | high, not executed | MetaMemory.InMemoryBucketStorer.ListBucketsByUserAsWritten, MetaMemory.AssignedBucketIsNotListed | MetaMemory.InMemoryBucketStorer.ListBucketsByUser |
| eoss3/eoss3.go:149 | the multi-user ListBuckets takes the user's names from the storer's ListBucketsByUser, which as written is always empty | CreateBucket("b"), AssignBucket("b", 1), then ListBuckets as uid 1 gives no bucket | the buckets assigned to the user | high, not executed | Backend.EosBackend.ListBucketsAsWritten, Backend.AssignedBucketIsHidden | Backend.EosBackend.ListBuckets |
| registry/memory.go:75-83 | the same zero-length copy | AssignBucket("b", 1) then ListBuckets(1) gives [] | the user's assigned buckets | high, not executed | RegistryMemory.MemoryRegistry.ListBucketsAsWritten, RegistryMemory.AssignedBucketIsNotListed | RegistryMemory.MemoryRegistry.ListBuckets |
| meta/memory.go:15-20 | the constructor leaves the path map nil, so StoreDefaultBucketPath panics | a new storer, then StoreDefaultBucketPath(1, "/p") | the path is stored | high, not executed | MetaMemory.InMemoryBucketStorer.constructor, MetaMemory.FreshStorerCannotStorePath | MetaMemory.InMemoryBucketStorer.Allocated, MetaMemory.StoredPathIsReadBack |
| eos/client.go:259 | reads res.Error.Code without checking that res.Error is set | an Exec reply with no error record | success | medium, not executed | EosClient.RemoveAsWritten, EosClient.RemoveAsWrittenPanicsOnNilError | EosClient.Remove |
| eoss3.go:576 | the same unchecked res.Error.Code in the legacy DeleteObject | a successful stat, then an Exec reply with no error record | success | medium, not executed | LegacyBackend.EosBackend.DeleteObjectAsWritten, LegacyBackend.EosBackend.DeleteObjectAsWrittenDiffers | LegacyBackend.EosBackend.DeleteObject |
