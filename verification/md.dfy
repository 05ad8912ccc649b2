/** The metadata vocabulary of the EOS gRPC service, reduced to the fields the
    gateway reads: an entry is a file or a container (directory) and carries,
    when the server fills them in, container or file metadata. */
module Md {
  import opened Common

  datatype NodeType = File | Container

  /** A container's metadata (erpc.ContainerMdProto). Times are seconds. */
  datatype ContainerMd = ContainerMd(
    path: string, name: string, mtime: int, ctime: int,
    containers: nat, files: nat)

  /** A file's metadata (erpc.FileMdProto). */
  datatype FileMd = FileMd(path: string, size: nat, etag: string, uid: nat, mtime: int)

  /** One MDResponse: a type and the metadata pointers, either of which may be nil. */
  datatype MD = MD(typ: NodeType, cmd: Option<ContainerMd>, fmd: Option<FileMd>)

  /** How a server stream ends once its items are read: io.EOF or another error. */
  datatype StreamEnd = Eof | Broken(err: Error)

  /** What successive Recv calls on a server stream return. */
  datatype Stream = Stream(items: seq<MD>, end: StreamEnd)

  /** The identity and key every gRPC request carries (erpc.RoleId + Authkey). */
  datatype Role = Role(uid: nat, gid: nat, authkey: string)

  /** The optional selection of a find request. */
  datatype Selection = Selection(select: bool, regexpFilename: Option<string>)

  /** erpc.FindRequest of type LISTING. */
  datatype FindRequest = FindRequest(path: string, role: Role, maxdepth: nat, selection: Option<Selection>)

  /** erpc.MDRequest of type STAT. */
  datatype StatRequest = StatRequest(path: string, role: Role)

  /** The commands of an erpc.NSRequest that the gateway issues. */
  datatype NsCommand =
    | Mkdir(path: string, recursive: bool, mode: int)
    | Rmdir(path: string)
    | Rm(path: string)

  datatype NsRequest = NsRequest(role: Role, command: NsCommand)

  /** erpc.NSResponse: the error part is a pointer that may be nil. */
  datatype NsError = NsError(code: int, msg: string)
  datatype NsResponse = NsResponse(error: Option<NsError>)
}
