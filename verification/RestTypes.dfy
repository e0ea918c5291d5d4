/** The RestSharp values the core handles: request parameters and the request
    descriptor that `RestBuilder.Create` produces. RestSharp's own behaviour
    (serialisation, transport) is not part of this model. */
module RestTypes {
  import opened Values

  /** RestSharp's `Method`. */
  datatype Method = GET | POST | PUT | DELETE | HEAD | OPTIONS | PATCH | MERGE | COPY

  /** RestSharp's `DataFormat`. */
  datatype DataFormat = Json | Xml | NoFormat

  /** RestSharp's `ParameterType`. */
  datatype ParameterType =
    | Cookie | GetOrPost | UrlSegment | HttpHeader | RequestBody | QueryString | QueryStringWithoutEncode

  /** A RestSharp `Parameter`; datatype equality stands for its `Equals`. */
  datatype Parameter = Parameter(name: string, value: string, kind: ParameterType)

  /** A file attachment: name, path and optional (nullable) content type. */
  datatype FileAttachment = FileAttachment(name: string, path: string, contentType: Option<string>)

  /** What a `RestRequest` built by `RestBuilder.Create` carries. Headers and
      cookies are kept as maps; their enumeration order is not modelled. */
  datatype Descriptor = Descriptor(
    resource: string,
    httpMethod: Method,
    format: DataFormat,
    parameters: seq<Parameter>,
    body: Option<Obj>,
    headers: map<string, string>,
    cookies: map<string, string>,
    file: Option<FileAttachment>,
    timeout: int32)
}
