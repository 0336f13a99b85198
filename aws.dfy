/** The values exchanged with the cloud provider: regions, the directory
    listing pages, the image requests, the calls the program makes, and the
    ways a run can fail. Responses to remote calls are not computed here:
    they are inputs of the model (see `Publish.Environment`). */
module Aws {
  import opened Wrappers

  /** A provider region. Two regions are the same exactly when their names
      are, so `region.name()` is a faithful key for the output map. */
  datatype Region = Region(name: string)

  /** One entry of a `GetParametersByPath` page; its value is optional in the
      response shape. */
  datatype Parameter = Parameter(value: Option<string>)

  /** One page of the region directory listing. */
  datatype Page = Page(parameters: Option<seq<Parameter>>, nextToken: Option<string>)

  /** What one listing request yields: a page, or the request's error text. */
  type PageResponse = Result<Page, string>

  datatype EbsBlockDevice = EbsBlockDevice(
    deleteOnTermination: bool,
    volumeType: string,
    snapshotId: string,
    volumeSize: int)

  datatype BlockDeviceMapping = BlockDeviceMapping(
    deviceName: string,
    ebs: Option<EbsBlockDevice>,
    virtualName: Option<string>)

  datatype RegisterImageRequest = RegisterImageRequest(
    name: string,
    architecture: string,
    enaSupport: bool,
    virtualizationType: string,
    description: string,
    rootDeviceName: string,
    blockDeviceMappings: seq<BlockDeviceMapping>)

  datatype Tag = Tag(key: string, value: string)

  datatype CreateTagsRequest = CreateTagsRequest(resources: seq<string>, tags: seq<Tag>)

  datatype CopyImageRequest = CopyImageRequest(
    name: string,
    sourceImageId: string,
    sourceRegion: string)

  /** One remote call, with the region its client was created for. */
  datatype Call =
    | GetParametersByPath(client: Region, path: string, nextToken: Option<string>)
    | UploadSnapshot(client: Region, file: string, description: string)
    | WaitForSnapshot(client: Region, snapshotId: string)
    | RegisterImage(client: Region, register: RegisterImageRequest)
    | CreateTags(client: Region, tagging: CreateTagsRequest)
    | CopyImage(client: Region, copy: CopyImageRequest)

  /** How a run ends when it does not end with output. `RequestFailed` is an
      error returned with `?`; `Panic` is an `expect`, an `unwrap` of `None`
      or a checked arithmetic overflow. */
  datatype Failure =
    | UnsupportedSystem(system: string)
    | InvalidDiskImage(reason: string)
    | InvalidRegion(token: string)
    | RequestFailed(operation: string, reason: string)
    | Panic(message: string)

  const UnwrapNone := "called `Option::unwrap()` on a `None` value"
}
