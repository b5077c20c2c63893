/** The shapes of what the streaming service's endpoints return, as far as the
    client looks at them, and the outcome of one HTTP request. The requests
    themselves are not modelled: the answer each endpoint gives is an input. */
module Backend {
  import opened Wrappers

  /** A timestamp exactly as the service writes it; the client only copies it. */
  type Stamp = string

  /** The two failure reports a request can produce:
      "Error Exception type: <name>" and "HTTP failure <status>: <text>". */
  datatype Error = ExceptionRaised(typeName: string) | HttpFailure(status: int, text: string)

  /** One request: the transport raised, or the server answered. */
  datatype Fetch<T> = Raised(typeName: string) | Replied(status: int, text: string, body: T)

  /** The answer of the start (authentication) endpoint; only its session token is read. */
  datatype BootResponse = BootResponse(sessionToken: Option<string>)

  datatype Image = Image(kind: string, url: string)

  /** One element of the channel listing's "data". */
  datatype ChannelElem = ChannelElem(
    id: string, name: string, slug: string, tmsid: string, summary: string,
    number: int, images: seq<Image>)

  /** One element of the category listing's "data". */
  datatype CategoryElem = CategoryElem(name: string, channelIDs: seq<string>)

  /** The parts of a timeline's episode the guide builder reads; `seriesType`
      is "" when the episode has no series or the series has no type. */
  datatype Episode = Episode(
    name: string, description: string,
    genre: Option<string>, subGenre: Option<string>, seriesType: string)

  datatype Timeline = Timeline(title: string, start: Stamp, stop: Stamp, episode: Episode)

  /** One channel's programmes within a timeline page. */
  datatype Entry = Entry(channelId: string, timelines: seq<Timeline>)

  /** One answer of the timeline endpoint: its "data" and its "meta.endDateTime"
      (already truncated to the hour). */
  datatype Page = Page(data: seq<Entry>, endDateTime: Stamp)

  /** What the service answers, per region (and, for timelines, per start time
      and channel batch). */
  datatype Network = Network(
    start: string -> Fetch<BootResponse>,
    channelList: string -> Fetch<seq<ChannelElem>>,
    categoryList: string -> Fetch<seq<CategoryElem>>,
    timelines: (string, Stamp, seq<string>) -> Fetch<Page>)

  /** The start endpoint accepts the statuses 200 and 201. */
  function Authenticate(f: Fetch<BootResponse>): (r: Result<BootResponse, Error>)
    ensures r.Ok? <==> f.Replied? && 200 <= f.status <= 201
    ensures r.Ok? ==> r.value == f.body
    ensures f.Raised? ==> r == Err(ExceptionRaised(f.typeName))
    ensures f.Replied? && r.Err? ==> r == Err(HttpFailure(f.status, f.text))
  {
    match f
    case Raised(name) => Err(ExceptionRaised(name))
    case Replied(status, text, body) =>
      if 200 <= status <= 201 then Ok(body) else Err(HttpFailure(status, text))
  }

  /** The channel, category and timeline endpoints accept only the status 200. */
  function Accept<T>(f: Fetch<T>): (r: Result<T, Error>)
    ensures r.Ok? <==> f.Replied? && f.status == 200
    ensures r.Ok? ==> r.value == f.body
    ensures f.Raised? ==> r == Err(ExceptionRaised(f.typeName))
    ensures f.Replied? && r.Err? ==> r == Err(HttpFailure(f.status, f.text))
  {
    match f
    case Raised(name) => Err(ExceptionRaised(name))
    case Replied(status, text, body) =>
      if status == 200 then Ok(body) else Err(HttpFailure(status, text))
  }
}
