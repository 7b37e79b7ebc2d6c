/**
  How the body of a message is framed and whether the connection persists: sections 3.3.3 and 6.3 of
  RFC 7230, and where the parser differs from them.
 */
module HttpFraming {
  import opened HttpStep
  import G = HttpGrammar

  // `Leaves`: the rest of the stream is another protocol.
  datatype Frame = Refused(errno: Errno) | Leaves | Empty | Sized(length: nat) | Chunks | UntilClose

  // What `on_headers_complete` has answered.
  function Skips(cfg: Config, h: Head): bool { cfg.onHeadersComplete(h) != Continue }

  function Upgrades(cfg: Config, h: Head): bool { h.upgrade || cfg.onHeadersComplete(h) == NoBodyUpgrade }

  // A status code whose response has no body.
  predicate NoBodyStatus(status: nat) { 100 <= status <= 199 || status == 204 || status == 304 }

  // A length next to a transfer coding, where that is not allowed.
  predicate Conflict(cfg: Config, h: Head) {
    h.usesTe && h.flags.contentLength && !(if h.flags.chunked then cfg.allowChunkedLength else cfg.lenient)
  }

  predicate Announced(h: Head) { h.flags.chunked || (h.contentLength > 0 && h.contentLength != NO_LENGTH) }

  // The framing of the parser.
  function BodyFrame(cfg: Config, h: Head): Frame {
    if h.flags.chunked then Chunks
    else if h.usesTe then
      if h.kind == Request && !cfg.lenient then Refused(INVALID_TRANSFER_ENCODING) else UntilClose
    else if h.contentLength != NO_LENGTH then (if h.contentLength == 0 then Empty else Sized(h.contentLength))
    else if h.kind == Request || NoBodyStatus(h.status) then Empty
    else UntilClose
  }

  function FrameOf(cfg: Config, h: Head): Frame {
    if Conflict(cfg, h) then Refused(UNEXPECTED_CONTENT_LENGTH)
    else if Upgrades(cfg, h) && (h.verb == CONNECT || Skips(cfg, h) || !Announced(h)) then Leaves
    else if Skips(cfg, h) then Empty
    else BodyFrame(cfg, h)
  }

  /**
    Section 3.3.3 of RFC 7230, rule by rule: a response with such a status, or one that the
    application says has no body; a transfer coding that ends with `chunked`, or not; a length; and
    neither.
   */
  function RfcFrame(h: Head, skip: bool): Frame {
    if skip || (h.kind != Request && NoBodyStatus(h.status)) then Empty
    else if h.usesTe && h.flags.chunked then Chunks
    else if h.usesTe then (if h.kind == Request then Refused(INVALID_TRANSFER_ENCODING) else UntilClose)
    else if h.contentLength != NO_LENGTH then (if h.contentLength == 0 then Empty else Sized(h.contentLength))
    else if h.kind == Request then Empty
    else UntilClose
  }

  // A body that the parser expects behind a status that forbids it.
  predicate ForbiddenBody(h: Head) {
    h.kind != Request && NoBodyStatus(h.status) && (h.usesTe || Announced(h))
  }

  /**
    Without a conflict and an upgrade, the parser frames the body as the RFC does, unless it is
    lenient with a request, or a response has a body that its status forbids.
   */
  lemma FrameIsRfc(cfg: Config, h: Head)
    requires !Conflict(cfg, h) && !Upgrades(cfg, h) && (h.flags.chunked ==> h.usesTe)
    ensures FrameOf(cfg, h) == RfcFrame(h, Skips(cfg, h))
        <==> Skips(cfg, h)
             || !(ForbiddenBody(h) || (h.kind == Request && cfg.lenient && h.usesTe && !h.flags.chunked))
  {
  }

  /** A response 304 with a length: the parser waits for a body that is not sent. */
  lemma NotModifiedHasBody(cfg: Config, h: Head)
    requires h.kind == Response && h.status == 304 && !h.usesTe && !h.flags.chunked && h.contentLength == 5
    requires !h.upgrade && cfg.onHeadersComplete(h) == Continue
    ensures FrameOf(cfg, h) == Sized(5) && RfcFrame(h, false) == Empty
  {
  }

  // ---- Persistence.

  // Only the end of the stream ends the message.
  predicate EndsWithStream(h: Head, skip: bool) {
    h.kind != Request && !NoBodyStatus(h.status) && !skip && !h.flags.chunked
    && (h.usesTe || h.contentLength == NO_LENGTH)
  }

  // The parser goes on with another message.
  predicate Persists(h: Head, skip: bool) {
    (if h.major > 0 && h.minor > 0 then !h.flags.close else h.flags.keepAlive) && !EndsWithStream(h, skip)
  }

  // Section 6.3 of RFC 7230, without proxies.
  predicate RfcPersists(h: Head) {
    if h.flags.close then false
    else if h.major > 1 || (h.major == 1 && h.minor >= 1) then true
    else h.major == 1 && h.minor == 0 && h.flags.keepAlive
  }

  /**
    The parser and the RFC differ exactly for HTTP/1.0 with both options, for later versions with the
    minor number 0, and for HTTP/0.
   */
  lemma PersistsIsRfc(h: Head, skip: bool)
    requires !EndsWithStream(h, skip)
    ensures Persists(h, skip) == RfcPersists(h)
        <==> || (h.major > 0 && h.minor > 0)
             || (h.major == 1 && h.minor == 0 && !(h.flags.close && h.flags.keepAlive))
             || (h.major > 1 && h.minor == 0 && h.flags.close != h.flags.keepAlive)
             || (h.major == 0 && !h.flags.keepAlive)
  {
  }

  // The state after a message.
  function NextStart(h: Head, skip: bool): State {
    if !Persists(h, skip) then Dead else if h.kind == Request then StartReq else StartRes
  }
}
