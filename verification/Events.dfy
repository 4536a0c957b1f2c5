/** The typed events of the log parser (backend/models.py), with the fields that some
    modelled component reads. */
module Events {
  import opened Prelude
  import opened IsoTime

  datatype LsnState = LsnState(lsn: int, active: bool, tg: Option<int>)

  datatype Body =
    | SiteInfo(site: int, siteRestLsn: int)
    | ChannelStatus(statusRestLsn: int)
    | LsnStatus(states: seq<LsnState>)
    | BankCall(lsnToTg: map<int, int>)
    | Quality(errorType: string)
    | VoiceCall(slot: int, src: int, tgt: int, restLsn: Option<int>)
    | PreambleCsbk(addressing: string, src: int, tgt: int)
    | DataHeader(slot: int, addressing: string, src: int, tgt: int)
    | IpMapping(isSource: bool, radioId: int, ip: string)
    | LrrpPosition(reporter: Option<int>, lat: real, lon: real)
    | LrrpRequest(src: int, tgt: int)
    | Encryption(slot: int)

  datatype Event = Event(at: ValidTime, channel: Option<string>, body: Body)

  type ValidTime = t: DateTime | Valid(t) witness DateTime(2000, 1, 1, 0, 0, 0, 0)

  function When(e: Event): nat {
    Micros(e.at)
  }

  function Day(e: Event): string {
    DayText(e.at)
  }

  function TypeName(b: Body): string {
    match b
    case SiteInfo(_, _) => "site_info"
    case ChannelStatus(_) => "channel_status"
    case LsnStatus(_) => "lsn_status"
    case BankCall(_) => "bank_call"
    case Quality(_) => "quality"
    case VoiceCall(_, _, _, _) => "voice_call"
    case PreambleCsbk(_, _, _) => "preamble_csbk"
    case DataHeader(_, _, _, _) => "data_header"
    case IpMapping(_, _, _) => "ip_mapping"
    case LrrpPosition(_, _, _) => "lrrp_position"
    case LrrpRequest(_, _) => "lrrp_request"
    case Encryption(_) => "encryption"
  }

  // ---- the JSON object's keys, None where the key is missing or null ----

  function JsonSrc(b: Body): Option<int> {
    match b
    case VoiceCall(_, src, _, _) => Some(src)
    case PreambleCsbk(_, src, _) => Some(src)
    case DataHeader(_, _, src, _) => Some(src)
    case LrrpRequest(src, _) => Some(src)
    case LrrpPosition(reporter, _, _) => reporter
    case _ => None
  }

  function JsonRadioId(b: Body): Option<int> {
    if b.IpMapping? then Some(b.radioId) else None
  }

  function JsonTgt(b: Body): Option<int> {
    match b
    case VoiceCall(_, _, tgt, _) => Some(tgt)
    case PreambleCsbk(_, _, tgt) => Some(tgt)
    case DataHeader(_, _, _, tgt) => Some(tgt)
    case LrrpRequest(_, tgt) => Some(tgt)
    case _ => None
  }

  function JsonSlot(b: Body): Option<int> {
    match b
    case VoiceCall(slot, _, _, _) => Some(slot)
    case DataHeader(slot, _, _, _) => Some(slot)
    case Encryption(slot) => Some(slot)
    case _ => None
  }

  function JsonAddressing(b: Body): Option<string> {
    match b
    case PreambleCsbk(addressing, _, _) => Some(addressing)
    case DataHeader(_, addressing, _, _) => Some(addressing)
    case _ => None
  }

  function JsonErrorType(b: Body): Option<string> {
    if b.Quality? then Some(b.errorType) else None
  }

  function OfDay(events: seq<Event>, day: string): seq<Event> {
    if events == [] then []
    else OfDay(events[..|events| - 1], day) +
         if Day(events[|events| - 1]) == day then [events[|events| - 1]] else []
  }

  lemma OfDaySnoc(events: seq<Event>, e: Event, day: string)
    ensures OfDay(events + [e], day) == OfDay(events, day) + if Day(e) == day then [e] else []
  {
    assert (events + [e])[..|events|] == events;
  }
}
