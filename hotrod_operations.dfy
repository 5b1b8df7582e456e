/** The Hot Rod client's remote-cache operations (protocol version 1.0).

    Every operation takes a transport, writes a request header (a fresh
    message id, the cache name, the OR of its flags) and a body, reads and
    validates the response header (magic, then message id, then opcode, then
    status), maps the status to its result and hands the transport back on
    every exit. Protocol constants are those of version 1.0 of the Hot Rod
    protocol.

    Each operation is specified by a function of the server's reply (the
    transport's pending input) and of the message id it was given; the
    functions that show the defects listed in the README take the variant to
    apply as a parameter, and the methods use the variant the code implements. */
module HotRod {
  import opened Base
  import opened HotRodTransport

  // Request and response magic, protocol version
  const REQUEST_MAGIC: int := 0xA0
  const RESPONSE_MAGIC: int := 0xA1
  const HOTROD_VERSION: int := 10

  // Operation codes
  const PUT_REQUEST: int := 0x01
  const PUT_RESPONSE: int := 0x02
  const GET_REQUEST: int := 0x03
  const GET_RESPONSE: int := 0x04
  const PUT_IF_ABSENT_REQUEST: int := 0x05
  const PUT_IF_ABSENT_RESPONSE: int := 0x06
  const REPLACE_REQUEST: int := 0x07
  const REPLACE_RESPONSE: int := 0x08
  const REPLACE_IF_UNMODIFIED_REQUEST: int := 0x09
  const REPLACE_IF_UNMODIFIED_RESPONSE: int := 0x0A
  const REMOVE_REQUEST: int := 0x0B
  const REMOVE_RESPONSE: int := 0x0C
  const REMOVE_IF_UNMODIFIED_REQUEST: int := 0x0D
  const REMOVE_IF_UNMODIFIED_RESPONSE: int := 0x0E
  const CONTAINS_KEY_REQUEST: int := 0x0F
  const CONTAINS_KEY_RESPONSE: int := 0x10
  const GET_WITH_CAS_REQUEST: int := 0x11
  const GET_WITH_CAS_RESPONSE: int := 0x12
  const CLEAR_REQUEST: int := 0x13
  const CLEAR_RESPONSE: int := 0x14
  const STATS_REQUEST: int := 0x15
  const STATS_RESPONSE: int := 0x16
  const PING_REQUEST: int := 0x17
  const PING_RESPONSE: int := 0x18
  const ERROR_RESPONSE: int := 0x50

  // Response statuses
  const NO_ERROR_STATUS: int := 0x00
  const NOT_PUT_REMOVED_REPLACED_STATUS: int := 0x01
  const KEY_DOES_NOT_EXIST_STATUS: int := 0x02
  const INVALID_MAGIC_OR_MESSAGE_ID_STATUS: int := 0x81
  const UNKNOWN_COMMAND_STATUS: int := 0x82
  const UNKNOWN_VERSION_STATUS: int := 0x83
  const REQUEST_PARSING_ERROR_STATUS: int := 0x84
  const SERVER_ERROR_STATUS: int := 0x85
  const COMMAND_TIMEOUT_STATUS: int := 0x86

  /** The client's per-operation flags, by their flag ints; FORCE_RETURN_VALUE is 0x0001. */
  datatype HotRodFlag = ForceReturnValue | OtherFlag(bits: bv32)

  function FlagInt(f: HotRodFlag): bv32
  {
    match f
    case ForceReturnValue => 0x0001
    case OtherFlag(bits) => bits
  }

  datatype BinaryVersionedValue = BinaryVersionedValue(version: int, value: Bytes)
  datatype RspCode = Success | ModifiedKey | NoSuchKey
  datatype VersionedOperationResponse = VersionedOperationResponse(prevValue: Option<Bytes>, code: RspCode)

  /** Which statuses the status check lets through: the code as written, or the code also
      accepting NOT_PUT_REMOVED_REPLACED, which the conditional operations expect. */
  datatype StatusPolicy = AsWritten | AcceptingNotPutRemovedReplaced

  // ---------------------------------------------------------------------------
  // Request header

  /** The flag word: the OR of the flag ints, taken in array order; 0 for a null array. */
  function OrAll(fs: seq<HotRodFlag>): bv32
  {
    if fs == [] then 0 else FlagInt(fs[|fs| - 1]) | OrAll(fs[..|fs| - 1])
  }

  function FlagWord(flags: Option<seq<HotRodFlag>>): bv32
  {
    if flags.None? then 0 else OrAll(flags.value)
  }

  /** The header fields: magic, message id, version, opcode, cache name, flag word, client
      intelligence and topology id 0. */
  function HeaderFields(messageId: int, opCode: int, cacheName: Bytes, flags: Option<seq<HotRodFlag>>,
                        clientIntelligence: int): (h: seq<Field>)
    ensures |h| == 8 && h[1] == VLongField(messageId) && h[3] == ByteField(opCode)
  {
    [ByteField(REQUEST_MAGIC), VLongField(messageId), ByteField(HOTROD_VERSION), ByteField(opCode),
     ArrayField(cacheName), VIntField(FlagWord(flags) as int), ByteField(clientIntelligence), VIntField(0)]
  }

  /** hasForceReturn(flags). */
  predicate HasForce(flags: Option<seq<HotRodFlag>>)
  {
    flags.Some? && ForceReturnValue in flags.value
  }

  // ---------------------------------------------------------------------------
  // Response header and status

  datatype StatusClass = ServerReportedError | CommandTimeout | Accepted | UnknownStatus

  predicate IsServerError(status: int)
  {
    || status == INVALID_MAGIC_OR_MESSAGE_ID_STATUS || status == REQUEST_PARSING_ERROR_STATUS
    || status == UNKNOWN_COMMAND_STATUS || status == SERVER_ERROR_STATUS || status == UNKNOWN_VERSION_STATUS
  }

  /** checkForErrorsInResponseStatus's case split. */
  function ClassifyStatus(status: int, policy: StatusPolicy): (c: StatusClass)
    ensures c == ServerReportedError <==> IsServerError(status)
    ensures c == CommandTimeout <==> status == COMMAND_TIMEOUT_STATUS
    ensures c == Accepted <==>
      status == NO_ERROR_STATUS || status == KEY_DOES_NOT_EXIST_STATUS
      || (policy == AcceptingNotPutRemovedReplaced && status == NOT_PUT_REMOVED_REPLACED_STATUS)
  {
    if IsServerError(status) then ServerReportedError
    else if status == COMMAND_TIMEOUT_STATUS then CommandTimeout
    else if status == NO_ERROR_STATUS || status == KEY_DOES_NOT_EXIST_STATUS then Accepted
    else if policy == AcceptingNotPutRemovedReplaced && status == NOT_PUT_REMOVED_REPLACED_STATUS then Accepted
    else UnknownStatus
  }

  function Propagate<T, U>(r: Read<T>): Read<U>
    requires r.result.Err?
  {
    Read(Err(r.result.error), r.rest)
  }

  /** checkForErrorsInResponseStatus(status, messageId, transport): a server-reported error
      carries the message the server sends after the status. */
  function CheckStatus(status: int, messageId: int, input: seq<Field>, policy: StatusPolicy): (r: Read<()>)
    ensures r.result.Ok? <==> ClassifyStatus(status, policy) == Accepted
    ensures r.result.Ok? ==> r.rest == input
  {
    match ClassifyStatus(status, policy)
    case ServerReportedError =>
      var m := ReadStringFrom(input);
      if m.result.Err? then Propagate(m)
      else Read(Err(HotRodClientException(m.result.value, messageId, status)), m.rest)
    case CommandTimeout => Read(Err(TimeoutException), input)
    case Accepted => Read(Ok(()), input)
    case UnknownStatus => Read(Err(IllegalStateException("Unknown status")), input)
  }

  /** readHeaderAndValidate(transport, messageId, opRespCode). */
  function ValidateHeader(input: seq<Field>, messageId: int, opRespCode: int, policy: StatusPolicy): Read<int>
  {
    var magic := ReadByteFrom(input);
    if magic.result.Err? then Propagate(magic)
    else if magic.result.value != RESPONSE_MAGIC then Read(Err(InvalidResponseException("Invalid magic number")), magic.rest)
    else
      var id := ReadVLongFrom(magic.rest);
      if id.result.Err? then Propagate(id)
      else if id.result.value != messageId then Read(Err(InvalidResponseException("Invalid message id")), id.rest)
      else
        var op := ReadByteFrom(id.rest);
        if op.result.Err? then Propagate(op)
        else if op.result.value != opRespCode then
          if op.result.value == ERROR_RESPONSE then
            var st := ReadByteFrom(op.rest);
            if st.result.Err? then Propagate(st)
            else
              var c := CheckStatus(st.result.value, messageId, st.rest, policy);
              if c.result.Err? then Propagate(c)
              else Read(Err(IllegalStateException("Error expected! (i.e. exception in the prev statement)")), c.rest)
          else Read(Err(InvalidResponseException("Invalid response operation")), op.rest)
        else
          var st := ReadByteFrom(op.rest);
          if st.result.Err? then Propagate(st)
          else
            var marker := ReadByteFrom(st.rest);
            if marker.result.Err? then Propagate(marker)
            else
              var c := CheckStatus(st.result.value, messageId, marker.rest, policy);
              if c.result.Err? then Propagate(c)
              else Read(Ok(st.result.value), c.rest)
  }

  /** A well-formed response header, as the server writes it. */
  function ReplyHeader(messageId: int, opCode: int, status: int): seq<Field>
  {
    [ByteField(RESPONSE_MAGIC), VLongField(messageId), ByteField(opCode), ByteField(status), ByteField(0)]
  }

  /** An error response header, followed by the status and, for a server-reported error, the
      server's message. */
  function ErrorReply(messageId: int, status: int): seq<Field>
  {
    [ByteField(RESPONSE_MAGIC), VLongField(messageId), ByteField(ERROR_RESPONSE), ByteField(status)]
  }

  /** Validation as written lets only NO_ERROR and KEY_DOES_NOT_EXIST through. */
  lemma ValidatedStatusAccepted(input: seq<Field>, messageId: int, opRespCode: int)
    ensures var h := ValidateHeader(input, messageId, opRespCode, AsWritten);
      h.result.Ok? ==> h.result.value == NO_ERROR_STATUS || h.result.value == KEY_DOES_NOT_EXIST_STATUS
  {
  }

  /** The header is checked magic first, then message id, then opcode: the first mismatch
      decides the exception, whatever follows it. */
  lemma HeaderChecksInOrder(messageId: int, opRespCode: int, policy: StatusPolicy, m: int, id: int, op: int,
                            rest: seq<Field>)
    ensures m != RESPONSE_MAGIC ==>
      ValidateHeader([ByteField(m)] + rest, messageId, opRespCode, policy).result
        == Err(InvalidResponseException("Invalid magic number"))
    ensures id != messageId ==>
      ValidateHeader([ByteField(RESPONSE_MAGIC), VLongField(id)] + rest, messageId, opRespCode, policy).result
        == Err(InvalidResponseException("Invalid message id"))
    ensures op != opRespCode && op != ERROR_RESPONSE ==>
      ValidateHeader([ByteField(RESPONSE_MAGIC), VLongField(messageId), ByteField(op)] + rest, messageId, opRespCode, policy).result
        == Err(InvalidResponseException("Invalid response operation"))
  {
    assert ([ByteField(RESPONSE_MAGIC), VLongField(id)] + rest)[1..] == [VLongField(id)] + rest;
    var s := [ByteField(RESPONSE_MAGIC), VLongField(messageId), ByteField(op)] + rest;
    assert s[1..] == [VLongField(messageId), ByteField(op)] + rest;
    assert s[1..][1..] == [ByteField(op)] + rest;
  }

  /** An ERROR_RESPONSE opcode is routed to the status check: a server-reported error carries the
      server's message, a timeout raises TimeoutException, any other status IllegalStateException. */
  lemma ErrorResponseRouted(messageId: int, opRespCode: int, status: int, rest: seq<Field>)
    requires opRespCode != ERROR_RESPONSE
    ensures var h := ValidateHeader(ErrorReply(messageId, status) + rest, messageId, opRespCode, AsWritten);
      && (IsServerError(status) && |rest| > 0 && rest[0].StringField? ==>
            h == Read(Err(HotRodClientException(rest[0].s, messageId, status)), rest[1..]))
      && (status == COMMAND_TIMEOUT_STATUS ==> h == Read(Err(TimeoutException), rest))
      && (!IsServerError(status) && status != COMMAND_TIMEOUT_STATUS ==>
            h.result.Err? && h.result.error.IllegalStateException?)
  {
    var t := ErrorReply(messageId, status) + rest;
    assert t[1..][1..][1..][1..] == rest;
  }

  /** A well-formed reply with an accepted status validates to that status and consumes exactly
      the header; any other status raises. */
  lemma ReplyValidates(messageId: int, opRespCode: int, status: int, rest: seq<Field>)
    ensures var h := ValidateHeader(ReplyHeader(messageId, opRespCode, status) + rest, messageId, opRespCode, AsWritten);
      && (status == NO_ERROR_STATUS || status == KEY_DOES_NOT_EXIST_STATUS ==> h == Read(Ok(status), rest))
      && (status == COMMAND_TIMEOUT_STATUS ==> h.result == Err(TimeoutException))
      && (ClassifyStatus(status, AsWritten) == UnknownStatus ==> h == Read(Err(IllegalStateException("Unknown status")), rest))
  {
    var s := ReplyHeader(messageId, opRespCode, status) + rest;
    assert s[1..][1..][1..][1..][1..] == rest;
  }

  // ---------------------------------------------------------------------------
  // Results of the operations, as functions of the server's reply

  /** returnPossiblePrevValue(transport, flags). */
  function PrevValue(input: seq<Field>, flags: Option<seq<HotRodFlag>>): (r: Read<Option<Bytes>>)
    ensures !HasForce(flags) ==> r == Read(Ok(None), input)
  {
    if HasForce(flags) then
      var v := ReadArrayFrom(input);
      if v.result.Err? then Propagate(v) else Read(Ok(Some(v.result.value)), v.rest)
    else Read(Ok(None), input)
  }

  function GetOutcome(input: seq<Field>, messageId: int): Read<Option<Bytes>>
  {
    var h := ValidateHeader(input, messageId, GET_RESPONSE, AsWritten);
    if h.result.Err? then Propagate(h)
    else if h.result.value == KEY_DOES_NOT_EXIST_STATUS then Read(Ok(None), h.rest)
    else if h.result.value == NO_ERROR_STATUS then
      var v := ReadArrayFrom(h.rest);
      if v.result.Err? then Propagate(v) else Read(Ok(Some(v.result.value)), v.rest)
    else Read(Err(IllegalStateException("We should not reach here!")), h.rest)
  }

  function RemoveOutcome(input: seq<Field>, messageId: int, flags: Option<seq<HotRodFlag>>): Read<Option<Bytes>>
  {
    var h := ValidateHeader(input, messageId, REMOVE_RESPONSE, AsWritten);
    if h.result.Err? then Propagate(h)
    else if h.result.value == KEY_DOES_NOT_EXIST_STATUS then Read(Ok(None), h.rest)
    else if h.result.value == NO_ERROR_STATUS then PrevValue(h.rest, flags)
    else Read(Err(IllegalStateException("We should not reach here!")), h.rest)
  }

  function ContainsKeyOutcome(input: seq<Field>, messageId: int): Read<bool>
  {
    var h := ValidateHeader(input, messageId, CONTAINS_KEY_RESPONSE, AsWritten);
    if h.result.Err? then Propagate(h)
    else if h.result.value == KEY_DOES_NOT_EXIST_STATUS then Read(Ok(false), h.rest)
    else if h.result.value == NO_ERROR_STATUS then Read(Ok(true), h.rest)
    else Read(Err(IllegalStateException("We should not reach here!")), h.rest)
  }

  function GetWithVersionOutcome(input: seq<Field>, messageId: int): Read<Option<BinaryVersionedValue>>
  {
    var h := ValidateHeader(input, messageId, GET_WITH_CAS_RESPONSE, AsWritten);
    if h.result.Err? then Propagate(h)
    else if h.result.value == KEY_DOES_NOT_EXIST_STATUS then Read(Ok(None), h.rest)
    else if h.result.value == NO_ERROR_STATUS then
      var version := ReadVLongFrom(h.rest);
      if version.result.Err? then Propagate(version)
      else
        var v := ReadArrayFrom(version.rest);
        if v.result.Err? then Propagate(v)
        else Read(Ok(Some(BinaryVersionedValue(version.result.value, v.result.value))), v.rest)
    else Read(Err(IllegalStateException("We should not reach here!")), h.rest)
  }

  function PutOutcome(input: seq<Field>, messageId: int, flags: Option<seq<HotRodFlag>>): Read<Option<Bytes>>
  {
    var h := ValidateHeader(input, messageId, PUT_RESPONSE, AsWritten);
    if h.result.Err? then Propagate(h)
    else if h.result.value != NO_ERROR_STATUS then Read(Err(InvalidResponseException("Unexpected response status")), h.rest)
    else PrevValue(h.rest, flags)
  }

  /** putIfAbsent and replace: NO_ERROR yields the possible previous value and
      NOT_PUT_REMOVED_REPLACED yields null. */
  function ConditionalPutOutcome(input: seq<Field>, messageId: int, opRespCode: int,
                                 flags: Option<seq<HotRodFlag>>, policy: StatusPolicy): Read<Option<Bytes>>
  {
    var h := ValidateHeader(input, messageId, opRespCode, policy);
    if h.result.Err? then Propagate(h)
    else if h.result.value == NO_ERROR_STATUS then PrevValue(h.rest, flags)
    else if h.result.value == NOT_PUT_REMOVED_REPLACED_STATUS then Read(Ok(None), h.rest)
    else Read(Err(IllegalStateException("We should not reach here!")), h.rest)
  }

  /** returnVersionedOperationResponse's status mapping. */
  function RspCodeOf(status: int): (c: Option<RspCode>)
    ensures c.Some? <==> status == NO_ERROR_STATUS || status == NOT_PUT_REMOVED_REPLACED_STATUS
                         || status == KEY_DOES_NOT_EXIST_STATUS
  {
    if status == NO_ERROR_STATUS then Some(Success)
    else if status == NOT_PUT_REMOVED_REPLACED_STATUS then Some(ModifiedKey)
    else if status == KEY_DOES_NOT_EXIST_STATUS then Some(NoSuchKey)
    else None
  }

  /** returnVersionedOperationResponse(transport, messageId, flags), validating against the given
      response opcode. */
  function VersionedOutcome(input: seq<Field>, messageId: int, opRespCode: int, flags: Option<seq<HotRodFlag>>,
                            policy: StatusPolicy): Read<VersionedOperationResponse>
  {
    var h := ValidateHeader(input, messageId, opRespCode, policy);
    if h.result.Err? then Propagate(h)
    else
      var code := RspCodeOf(h.result.value);
      if code.None? then Read(Err(IllegalStateException("Unknown response status")), h.rest)
      else
        var p := PrevValue(h.rest, flags);
        if p.result.Err? then Propagate(p)
        else Read(Ok(VersionedOperationResponse(p.result.value, code.value)), p.rest)
  }

  function ClearOutcome(input: seq<Field>, messageId: int): Read<()>
  {
    var h := ValidateHeader(input, messageId, CLEAR_RESPONSE, AsWritten);
    if h.result.Err? then Propagate(h) else Read(Ok(()), h.rest)
  }

  /** ping(): a TransportException yields false; NO_ERROR yields true. */
  function PingOutcome(input: seq<Field>, messageId: int): Read<bool>
  {
    var h := ValidateHeader(input, messageId, PING_RESPONSE, AsWritten);
    if h.result.Err? then
      if h.result.error == TransportException then Read(Ok(false), h.rest) else Propagate(h)
    else if h.result.value == NO_ERROR_STATUS then Read(Ok(true), h.rest)
    else Read(Err(IllegalStateException("Unknown response status")), h.rest)
  }

  /** The statistics loop: `remaining` more (name, value) pairs, later names overriding earlier. */
  function ReadStats(input: seq<Field>, remaining: int, acc: map<string, int>): Read<map<string, int>>
    decreases if remaining < 0 then 0 else remaining
  {
    if remaining <= 0 then Read(Ok(acc), input)
    else
      var name := ReadStringFrom(input);
      if name.result.Err? then Propagate(name)
      else
        var value := ReadVLongFrom(name.rest);
        if value.result.Err? then Propagate(value)
        else ReadStats(value.rest, remaining - 1, acc[name.result.value := value.result.value])
  }

  /** stats(), validating against the given response opcode. */
  function StatsOutcome(input: seq<Field>, messageId: int, opRespCode: int): Read<map<string, int>>
  {
    var h := ValidateHeader(input, messageId, opRespCode, AsWritten);
    if h.result.Err? then Propagate(h)
    else
      var n := ReadVIntFrom(h.rest);
      if n.result.Err? then Propagate(n)
      else ReadStats(n.rest, n.result.value, map[])
  }

  // ---------------------------------------------------------------------------
  // Properties of the operations

  /** A previous value is read only when FORCE_RETURN_VALUE is among the flags. */
  lemma PrevValueOnlyWhenForced(input: seq<Field>, flags: Option<seq<HotRodFlag>>, v: Bytes)
    ensures !HasForce(flags) ==> PrevValue(input, flags) == Read(Ok(None), input)
    ensures HasForce(flags) ==> PrevValue([ArrayField(v)] + input, flags) == Read(Ok(Some(v)), input)
  {
    assert ([ArrayField(v)] + input)[1..] == input;
  }

  /** get and getWithVersion map KEY_DOES_NOT_EXIST to null and NO_ERROR to what follows the
      header; containsKey maps them to false and true. */
  lemma ReadOperationsMapStatus(messageId: int, v: Bytes, version: int, rest: seq<Field>)
    ensures GetOutcome(ReplyHeader(messageId, GET_RESPONSE, KEY_DOES_NOT_EXIST_STATUS) + rest, messageId)
            == Read(Ok(None), rest)
    ensures GetOutcome(ReplyHeader(messageId, GET_RESPONSE, NO_ERROR_STATUS) + ([ArrayField(v)] + rest), messageId)
            == Read(Ok(Some(v)), rest)
    ensures ContainsKeyOutcome(ReplyHeader(messageId, CONTAINS_KEY_RESPONSE, KEY_DOES_NOT_EXIST_STATUS) + rest, messageId)
            == Read(Ok(false), rest)
    ensures ContainsKeyOutcome(ReplyHeader(messageId, CONTAINS_KEY_RESPONSE, NO_ERROR_STATUS) + rest, messageId)
            == Read(Ok(true), rest)
    ensures GetWithVersionOutcome(ReplyHeader(messageId, GET_WITH_CAS_RESPONSE, KEY_DOES_NOT_EXIST_STATUS) + rest, messageId)
            == Read(Ok(None), rest)
    ensures GetWithVersionOutcome(ReplyHeader(messageId, GET_WITH_CAS_RESPONSE, NO_ERROR_STATUS)
                                  + ([VLongField(version), ArrayField(v)] + rest), messageId)
            == Read(Ok(Some(BinaryVersionedValue(version, v))), rest)
  {
    ReplyValidates(messageId, GET_RESPONSE, KEY_DOES_NOT_EXIST_STATUS, rest);
    ReplyValidates(messageId, GET_RESPONSE, NO_ERROR_STATUS, [ArrayField(v)] + rest);
    assert ([ArrayField(v)] + rest)[1..] == rest;
    ReplyValidates(messageId, CONTAINS_KEY_RESPONSE, KEY_DOES_NOT_EXIST_STATUS, rest);
    ReplyValidates(messageId, CONTAINS_KEY_RESPONSE, NO_ERROR_STATUS, rest);
    ReplyValidates(messageId, GET_WITH_CAS_RESPONSE, KEY_DOES_NOT_EXIST_STATUS, rest);
    var body := [VLongField(version), ArrayField(v)] + rest;
    ReplyValidates(messageId, GET_WITH_CAS_RESPONSE, NO_ERROR_STATUS, body);
    assert body[1..] == [ArrayField(v)] + rest;
    assert body[1..][1..] == rest;
  }

  /** put refuses every status but NO_ERROR: a KEY_DOES_NOT_EXIST reply raises
      InvalidResponseException. */
  lemma PutRequiresNoError(messageId: int, flags: Option<seq<HotRodFlag>>, rest: seq<Field>)
    ensures PutOutcome(ReplyHeader(messageId, PUT_RESPONSE, KEY_DOES_NOT_EXIST_STATUS) + rest, messageId, flags)
            == Read(Err(InvalidResponseException("Unexpected response status")), rest)
    ensures PutOutcome(ReplyHeader(messageId, PUT_RESPONSE, NO_ERROR_STATUS) + rest, messageId, flags)
            == PrevValue(rest, flags)
  {
    ReplyValidates(messageId, PUT_RESPONSE, KEY_DOES_NOT_EXIST_STATUS, rest);
    ReplyValidates(messageId, PUT_RESPONSE, NO_ERROR_STATUS, rest);
  }

  /** remove maps KEY_DOES_NOT_EXIST to null and NO_ERROR to the possible previous value. */
  lemma RemoveMapsStatus(messageId: int, flags: Option<seq<HotRodFlag>>, rest: seq<Field>)
    ensures RemoveOutcome(ReplyHeader(messageId, REMOVE_RESPONSE, KEY_DOES_NOT_EXIST_STATUS) + rest, messageId, flags)
            == Read(Ok(None), rest)
    ensures RemoveOutcome(ReplyHeader(messageId, REMOVE_RESPONSE, NO_ERROR_STATUS) + rest, messageId, flags)
            == PrevValue(rest, flags)
  {
    ReplyValidates(messageId, REMOVE_RESPONSE, KEY_DOES_NOT_EXIST_STATUS, rest);
    ReplyValidates(messageId, REMOVE_RESPONSE, NO_ERROR_STATUS, rest);
  }

  /** ping answers true on NO_ERROR and raises on any other accepted status; a transport failure
      while reading the reply, such as a connection with nothing to read, answers false, and any
      other failure is raised. */
  lemma PingAnswers(messageId: int, rest: seq<Field>, input: seq<Field>)
    ensures PingOutcome(ReplyHeader(messageId, PING_RESPONSE, NO_ERROR_STATUS) + rest, messageId)
            == Read(Ok(true), rest)
    ensures PingOutcome(ReplyHeader(messageId, PING_RESPONSE, KEY_DOES_NOT_EXIST_STATUS) + rest, messageId)
            == Read(Err(IllegalStateException("Unknown response status")), rest)
    ensures PingOutcome([], messageId) == Read(Ok(false), [])
    ensures var h := ValidateHeader(input, messageId, PING_RESPONSE, AsWritten);
      && (h.result == Err(TransportException) ==> PingOutcome(input, messageId).result == Ok(false))
      && (h.result.Err? && h.result.error != TransportException ==> PingOutcome(input, messageId).result == Err(h.result.error))
  {
    ReplyValidates(messageId, PING_RESPONSE, NO_ERROR_STATUS, rest);
    ReplyValidates(messageId, PING_RESPONSE, KEY_DOES_NOT_EXIST_STATUS, rest);
  }

  /** The versioned mapping: NO_ERROR is SUCCESS, NOT_PUT_REMOVED_REPLACED is MODIFIED_KEY and
      KEY_DOES_NOT_EXIST is NO_SUCH_KEY; a validated status is never left unmapped. */
  lemma VersionedStatusMapping(input: seq<Field>, messageId: int, opRespCode: int, flags: Option<seq<HotRodFlag>>,
                               policy: StatusPolicy)
    ensures RspCodeOf(NO_ERROR_STATUS) == Some(Success)
    ensures RspCodeOf(NOT_PUT_REMOVED_REPLACED_STATUS) == Some(ModifiedKey)
    ensures RspCodeOf(KEY_DOES_NOT_EXIST_STATUS) == Some(NoSuchKey)
    ensures var h := ValidateHeader(input, messageId, opRespCode, policy);
      h.result.Ok? ==> RspCodeOf(h.result.value).Some?
  {
  }

  // ---------------------------------------------------------------------------
  // Defects: each as written, with the reply that shows it, and as evidently intended

  /** As written, a NOT_PUT_REMOVED_REPLACED reply to putIfAbsent or replace is rejected by the
      status check, so neither can return null for "not put". */
  lemma ConditionalPutRefusalRejected(messageId: int, opRespCode: int, flags: Option<seq<HotRodFlag>>, rest: seq<Field>)
    ensures ConditionalPutOutcome(ReplyHeader(messageId, opRespCode, NOT_PUT_REMOVED_REPLACED_STATUS) + rest,
                                  messageId, opRespCode, flags, AsWritten)
            == Read(Err(IllegalStateException("Unknown status")), rest)
  {
    ReplyValidates(messageId, opRespCode, NOT_PUT_REMOVED_REPLACED_STATUS, rest);
  }

  /** As evidently intended, the refusal yields null and consumes nothing after the header. */
  lemma ConditionalPutRefusalYieldsNull(messageId: int, opRespCode: int, flags: Option<seq<HotRodFlag>>, rest: seq<Field>)
    ensures ConditionalPutOutcome(ReplyHeader(messageId, opRespCode, NOT_PUT_REMOVED_REPLACED_STATUS) + rest,
                                  messageId, opRespCode, flags, AcceptingNotPutRemovedReplaced)
            == Read(Ok(None), rest)
  {
    var s := ReplyHeader(messageId, opRespCode, NOT_PUT_REMOVED_REPLACED_STATUS) + rest;
    assert s[1..][1..][1..][1..][1..] == rest;
  }

  /** As written, a MODIFIED_KEY outcome is unreachable: the versioned operations raise on the
      NOT_PUT_REMOVED_REPLACED reply instead. */
  lemma VersionedModifiedKeyUnreachable(input: seq<Field>, messageId: int, opRespCode: int,
                                        flags: Option<seq<HotRodFlag>>)
    ensures var r := VersionedOutcome(input, messageId, opRespCode, flags, AsWritten);
      r.result.Ok? ==> r.result.value.code != ModifiedKey
    ensures VersionedOutcome(ReplyHeader(messageId, opRespCode, NOT_PUT_REMOVED_REPLACED_STATUS) + input,
                             messageId, opRespCode, flags, AsWritten).result
            == Err(IllegalStateException("Unknown status"))
  {
    ReplyValidates(messageId, opRespCode, NOT_PUT_REMOVED_REPLACED_STATUS, input);
  }

  /** As evidently intended, the NOT_PUT_REMOVED_REPLACED reply gives MODIFIED_KEY, together with
      the previous value that follows the header when FORCE_RETURN_VALUE was sent. */
  lemma VersionedModifiedKeyReported(messageId: int, opRespCode: int, flags: Option<seq<HotRodFlag>>,
                                     v: Bytes, rest: seq<Field>)
    ensures !HasForce(flags) ==>
      VersionedOutcome(ReplyHeader(messageId, opRespCode, NOT_PUT_REMOVED_REPLACED_STATUS) + rest,
                       messageId, opRespCode, flags, AcceptingNotPutRemovedReplaced)
      == Read(Ok(VersionedOperationResponse(None, ModifiedKey)), rest)
    ensures HasForce(flags) ==>
      VersionedOutcome(ReplyHeader(messageId, opRespCode, NOT_PUT_REMOVED_REPLACED_STATUS) + ([ArrayField(v)] + rest),
                       messageId, opRespCode, flags, AcceptingNotPutRemovedReplaced)
      == Read(Ok(VersionedOperationResponse(Some(v), ModifiedKey)), rest)
  {
    var s := ReplyHeader(messageId, opRespCode, NOT_PUT_REMOVED_REPLACED_STATUS) + rest;
    assert s[1..][1..][1..][1..][1..] == rest;
    var t := ReplyHeader(messageId, opRespCode, NOT_PUT_REMOVED_REPLACED_STATUS) + ([ArrayField(v)] + rest);
    assert t[1..][1..][1..][1..][1..] == [ArrayField(v)] + rest;
    PrevValueOnlyWhenForced(rest, flags, v);
  }

  /** As written, removeIfUnmodified validates its reply against REPLACE_IF_UNMODIFIED_RESPONSE,
      so the server's REMOVE_IF_UNMODIFIED_RESPONSE reply is rejected whatever its status. */
  lemma RemoveIfUnmodifiedReplyRejected(messageId: int, status: int, flags: Option<seq<HotRodFlag>>,
                                        policy: StatusPolicy, rest: seq<Field>)
    ensures VersionedOutcome(ReplyHeader(messageId, REMOVE_IF_UNMODIFIED_RESPONSE, status) + rest,
                             messageId, REPLACE_IF_UNMODIFIED_RESPONSE, flags, policy).result
            == Err(InvalidResponseException("Invalid response operation"))
  {
    HeaderChecksInOrder(messageId, REPLACE_IF_UNMODIFIED_RESPONSE, policy, RESPONSE_MAGIC, messageId,
                        REMOVE_IF_UNMODIFIED_RESPONSE, [ByteField(status), ByteField(0)] + rest);
    assert ReplyHeader(messageId, REMOVE_IF_UNMODIFIED_RESPONSE, status) + rest
        == [ByteField(RESPONSE_MAGIC), VLongField(messageId), ByteField(REMOVE_IF_UNMODIFIED_RESPONSE)]
           + ([ByteField(status), ByteField(0)] + rest);
  }

  /** As evidently intended, validating against REMOVE_IF_UNMODIFIED_RESPONSE maps the removal's
      reply to its code. */
  lemma RemoveIfUnmodifiedReplyAccepted(messageId: int, flags: Option<seq<HotRodFlag>>, v: Bytes, rest: seq<Field>)
    ensures !HasForce(flags) ==>
      VersionedOutcome(ReplyHeader(messageId, REMOVE_IF_UNMODIFIED_RESPONSE, NO_ERROR_STATUS) + rest,
                       messageId, REMOVE_IF_UNMODIFIED_RESPONSE, flags, AsWritten)
      == Read(Ok(VersionedOperationResponse(None, Success)), rest)
    ensures !HasForce(flags) ==>
      VersionedOutcome(ReplyHeader(messageId, REMOVE_IF_UNMODIFIED_RESPONSE, KEY_DOES_NOT_EXIST_STATUS) + rest,
                       messageId, REMOVE_IF_UNMODIFIED_RESPONSE, flags, AsWritten)
      == Read(Ok(VersionedOperationResponse(None, NoSuchKey)), rest)
    ensures HasForce(flags) ==>
      VersionedOutcome(ReplyHeader(messageId, REMOVE_IF_UNMODIFIED_RESPONSE, NO_ERROR_STATUS) + ([ArrayField(v)] + rest),
                       messageId, REMOVE_IF_UNMODIFIED_RESPONSE, flags, AsWritten)
      == Read(Ok(VersionedOperationResponse(Some(v), Success)), rest)
    ensures HasForce(flags) ==>
      VersionedOutcome(ReplyHeader(messageId, REMOVE_IF_UNMODIFIED_RESPONSE, KEY_DOES_NOT_EXIST_STATUS)
                         + ([ArrayField(v)] + rest),
                       messageId, REMOVE_IF_UNMODIFIED_RESPONSE, flags, AsWritten)
      == Read(Ok(VersionedOperationResponse(Some(v), NoSuchKey)), rest)
  {
    ReplyValidates(messageId, REMOVE_IF_UNMODIFIED_RESPONSE, NO_ERROR_STATUS, rest);
    ReplyValidates(messageId, REMOVE_IF_UNMODIFIED_RESPONSE, KEY_DOES_NOT_EXIST_STATUS, rest);
    ReplyValidates(messageId, REMOVE_IF_UNMODIFIED_RESPONSE, NO_ERROR_STATUS, [ArrayField(v)] + rest);
    ReplyValidates(messageId, REMOVE_IF_UNMODIFIED_RESPONSE, KEY_DOES_NOT_EXIST_STATUS, [ArrayField(v)] + rest);
    PrevValueOnlyWhenForced(rest, flags, v);
  }

  /** The statistics as the server sends them: a count, then (name, value) pairs. */
  function StatFields(stats: seq<(string, int)>): seq<Field>
  {
    if stats == [] then [] else [StringField(stats[0].0), VLongField(stats[0].1)] + StatFields(stats[1..])
  }

  function StatsMap(acc: map<string, int>, stats: seq<(string, int)>): map<string, int>
    decreases |stats|
  {
    if stats == [] then acc else StatsMap(acc[stats[0].0 := stats[0].1], stats[1..])
  }

  lemma {:induction false} ReadStatsDecodes(stats: seq<(string, int)>, acc: map<string, int>, rest: seq<Field>)
    ensures ReadStats(StatFields(stats) + rest, |stats|, acc) == Read(Ok(StatsMap(acc, stats)), rest)
  {
    if stats != [] {
      var s := StatFields(stats) + rest;
      assert s == [StringField(stats[0].0), VLongField(stats[0].1)] + (StatFields(stats[1..]) + rest);
      assert s[1..][1..] == StatFields(stats[1..]) + rest;
      ReadStatsDecodes(stats[1..], acc[stats[0].0 := stats[0].1], rest);
    }
  }

  /** As written, stats() validates its reply against CLEAR_RESPONSE, so the server's
      STATS_RESPONSE reply is rejected whatever its status and body. */
  lemma StatsReplyRejected(messageId: int, status: int, body: seq<Field>)
    ensures StatsOutcome(ReplyHeader(messageId, STATS_RESPONSE, status) + body, messageId, CLEAR_RESPONSE).result
            == Err(InvalidResponseException("Invalid response operation"))
  {
    var input := ReplyHeader(messageId, STATS_RESPONSE, status) + body;
    var tail := [ByteField(status), ByteField(0)] + body;
    assert input == [ByteField(RESPONSE_MAGIC), VLongField(messageId), ByteField(STATS_RESPONSE)] + tail;
    HeaderChecksInOrder(messageId, CLEAR_RESPONSE, AsWritten, RESPONSE_MAGIC, messageId, STATS_RESPONSE, tail);
    StatsPropagatesHeaderError(input, messageId, CLEAR_RESPONSE);
  }

  lemma StatsPropagatesHeaderError(input: seq<Field>, messageId: int, opRespCode: int)
    ensures var h := ValidateHeader(input, messageId, opRespCode, AsWritten);
      h.result.Err? ==> StatsOutcome(input, messageId, opRespCode).result == Err(h.result.error)
  {
  }

  /** As evidently intended, validating against STATS_RESPONSE decodes the statistics. */
  lemma StatsReplyDecoded(messageId: int, stats: seq<(string, int)>, rest: seq<Field>)
    ensures StatsOutcome(ReplyHeader(messageId, STATS_RESPONSE, NO_ERROR_STATUS)
                         + ([VIntField(|stats|)] + (StatFields(stats) + rest)), messageId, STATS_RESPONSE)
            == Read(Ok(StatsMap(map[], stats)), rest)
  {
    var body := [VIntField(|stats|)] + (StatFields(stats) + rest);
    ReplyValidates(messageId, STATS_RESPONSE, NO_ERROR_STATUS, body);
    assert ReadVIntFrom(body) == Read(Ok(|stats|), StatFields(stats) + rest) by {
      assert body[1..] == StatFields(stats) + rest;
    }
    ReadStatsDecodes(stats, map[], rest);
  }

  // ---------------------------------------------------------------------------
  // The client

  /** hasForceReturn(flags). */
  method HasForceReturn(flags: Option<seq<HotRodFlag>>) returns (b: bool)
    ensures b <==> flags.Some? && exists i | 0 <= i < |flags.value| :: flags.value[i] == ForceReturnValue
  {
    if flags.None? {
      return false;
    }
    var fs := flags.value;
    var i := 0;
    while i < |fs|
      invariant 0 <= i <= |fs|
      invariant forall j | 0 <= j < i :: fs[j] != ForceReturnValue
    {
      if fs[i] == ForceReturnValue {
        return true;
      }
      i := i + 1;
    }
    return false;
  }

  /** writeHeader's flag loop: OR-ing the flag ints gives the flag word. */
  method FlagWordOf(flags: Option<seq<HotRodFlag>>) returns (flagInt: bv32)
    ensures flagInt == FlagWord(flags)
  {
    flagInt := 0;
    if flags.Some? {
      var fs := flags.value;
      var i := 0;
      while i < |fs|
        invariant 0 <= i <= |fs|
        invariant flagInt == OrAll(fs[..i])
      {
        assert fs[..i + 1][..i] == fs[..i];
        flagInt := FlagInt(fs[i]) | flagInt;
        i := i + 1;
      }
      assert fs[..i] == fs;
    }
  }

  class HotrodOperations {
    const cacheNameBytes: Bytes
    var clientIntelligence: int
    /** The message-id counter shared by all clients of the process. */
    const msgIds: MessageIdCounter

    constructor (cacheNameBytes: Bytes, msgIds: MessageIdCounter)
      ensures this.cacheNameBytes == cacheNameBytes && this.msgIds == msgIds && clientIntelligence == 0
    {
      this.cacheNameBytes := cacheNameBytes;
      this.msgIds := msgIds;
      clientIntelligence := 0;
    }

    function Header(messageId: int, opCode: int, flags: Option<seq<HotRodFlag>>): seq<Field>
      reads this
    {
      HeaderFields(messageId, opCode, cacheNameBytes, flags, clientIntelligence)
    }

    /** writeHeader(transport, operationCode, flags): returns the fresh message id it wrote. */
    method WriteHeader(transport: Transport, opCode: int, flags: Option<seq<HotRodFlag>>) returns (messageId: nat)
      requires msgIds.Valid()
      modifies transport`output, msgIds
      ensures msgIds.Valid()
      ensures messageId == msgIds.value == old(msgIds.value) + 1
      ensures msgIds.issued == old(msgIds.issued) + [messageId]
      ensures forall i | 0 <= i < |old(msgIds.issued)| :: old(msgIds.issued)[i] < messageId
      ensures transport.output == old(transport.output) + Header(messageId, opCode, flags)
    {
      transport.Write(ByteField(REQUEST_MAGIC));
      messageId := msgIds.IncrementAndGet();
      transport.Write(VLongField(messageId));
      transport.Write(ByteField(HOTROD_VERSION));
      transport.Write(ByteField(opCode));
      transport.Write(ArrayField(cacheNameBytes));
      var flagInt := FlagWordOf(flags);
      transport.Write(VIntField(flagInt as int));
      transport.Write(ByteField(clientIntelligence));
      transport.Write(VIntField(0));
    }

    /** checkForErrorsInResponseStatus(status, messageId, transport). */
    method CheckForErrorsInResponseStatus(transport: Transport, status: int, messageId: int) returns (r: Result<()>)
      modifies transport`input
      ensures Read(r, transport.input) == CheckStatus(status, messageId, old(transport.input), AsWritten)
    {
      var c := ClassifyStatus(status, AsWritten);
      match c
      case ServerReportedError =>
        var m := transport.ReadString();
        if m.Err? {
          return Err(m.error);
        }
        return Err(HotRodClientException(m.value, messageId, status));
      case CommandTimeout =>
        return Err(TimeoutException);
      case Accepted =>
        return Ok(());
      case UnknownStatus =>
        return Err(IllegalStateException("Unknown status"));
    }

    /** readHeaderAndValidate(transport, messageId, opRespCode). */
    method ReadHeaderAndValidate(transport: Transport, messageId: int, opRespCode: int) returns (r: Result<int>)
      modifies transport`input
      ensures Read(r, transport.input) == ValidateHeader(old(transport.input), messageId, opRespCode, AsWritten)
    {
      var magic := transport.ReadByte();
      if magic.Err? {
        return Err(magic.error);
      }
      if magic.value != RESPONSE_MAGIC {
        return Err(InvalidResponseException("Invalid magic number"));
      }
      var receivedMessageId := transport.ReadVLong();
      if receivedMessageId.Err? {
        return Err(receivedMessageId.error);
      }
      if receivedMessageId.value != messageId {
        return Err(InvalidResponseException("Invalid message id"));
      }
      var receivedOpCode := transport.ReadByte();
      if receivedOpCode.Err? {
        return Err(receivedOpCode.error);
      }
      if receivedOpCode.value != opRespCode {
        if receivedOpCode.value == ERROR_RESPONSE {
          var errorStatus := transport.ReadByte();
          if errorStatus.Err? {
            return Err(errorStatus.error);
          }
          var c := CheckForErrorsInResponseStatus(transport, errorStatus.value, messageId);
          if c.Err? {
            return Err(c.error);
          }
          return Err(IllegalStateException("Error expected! (i.e. exception in the prev statement)"));
        }
        return Err(InvalidResponseException("Invalid response operation"));
      }
      var status := transport.ReadByte();
      if status.Err? {
        return Err(status.error);
      }
      var marker := transport.ReadByte();
      if marker.Err? {
        return Err(marker.error);
      }
      var c := CheckForErrorsInResponseStatus(transport, status.value, messageId);
      if c.Err? {
        return Err(c.error);
      }
      r := Ok(status.value);
    }

    /** returnPossiblePrevValue(transport, flags). */
    method ReturnPossiblePrevValue(transport: Transport, flags: Option<seq<HotRodFlag>>) returns (r: Result<Option<Bytes>>)
      modifies transport`input
      ensures Read(r, transport.input) == PrevValue(old(transport.input), flags)
    {
      var force := HasForceReturn(flags);
      if force {
        var v := transport.ReadByteArray();
        if v.Err? {
          return Err(v.error);
        }
        return Ok(Some(v.value));
      }
      r := Ok(None);
    }

    /** sendKeyOperation: header, key, flush, then the validated status. */
    method SendKeyOperation(key: Bytes, transport: Transport, opCode: int, flags: Option<seq<HotRodFlag>>,
                            opRespCode: int) returns (status: Result<int>)
      requires msgIds.Valid()
      modifies transport`output, transport`input, msgIds
      ensures msgIds.Valid() && msgIds.value == old(msgIds.value) + 1 && msgIds.issued == old(msgIds.issued) + [msgIds.value]
      ensures transport.output == old(transport.output) + Header(msgIds.value, opCode, flags) + [ArrayField(key), FlushMarker]
      ensures Read(status, transport.input) == ValidateHeader(old(transport.input), msgIds.value, opRespCode, AsWritten)
    {
      var messageId := WriteHeader(transport, opCode, flags);
      transport.Write(ArrayField(key));
      transport.Flush();
      status := ReadHeaderAndValidate(transport, messageId, opRespCode);
    }

    /** sendPutOperation: header, key, lifespan, max idle, value, flush, then the validated status. */
    method SendPutOperation(key: Bytes, value: Bytes, transport: Transport, opCode: int, opRespCode: int,
                            lifespan: int, maxIdle: int, flags: Option<seq<HotRodFlag>>) returns (status: Result<int>)
      requires msgIds.Valid()
      modifies transport`output, transport`input, msgIds
      ensures msgIds.Valid() && msgIds.value == old(msgIds.value) + 1 && msgIds.issued == old(msgIds.issued) + [msgIds.value]
      ensures transport.output == old(transport.output) + Header(msgIds.value, opCode, flags)
        + [ArrayField(key), VIntField(lifespan), VIntField(maxIdle), ArrayField(value), FlushMarker]
      ensures Read(status, transport.input) == ValidateHeader(old(transport.input), msgIds.value, opRespCode, AsWritten)
    {
      var messageId := WriteHeader(transport, opCode, flags);
      transport.Write(ArrayField(key));
      transport.Write(VIntField(lifespan));
      transport.Write(VIntField(maxIdle));
      transport.Write(ArrayField(value));
      transport.Flush();
      status := ReadHeaderAndValidate(transport, messageId, opRespCode);
    }

    /** returnVersionedOperationResponse(transport, messageId, flags). */
    method ReturnVersionedOperationResponse(transport: Transport, messageId: int, flags: Option<seq<HotRodFlag>>)
      returns (r: Result<VersionedOperationResponse>)
      modifies transport`input
      ensures Read(r, transport.input)
              == VersionedOutcome(old(transport.input), messageId, REPLACE_IF_UNMODIFIED_RESPONSE, flags, AsWritten)
    {
      var respStatus := ReadHeaderAndValidate(transport, messageId, REPLACE_IF_UNMODIFIED_RESPONSE);
      if respStatus.Err? {
        return Err(respStatus.error);
      }
      var code: RspCode;
      if respStatus.value == NO_ERROR_STATUS {
        code := Success;
      } else if respStatus.value == NOT_PUT_REMOVED_REPLACED_STATUS {
        code := ModifiedKey;
      } else if respStatus.value == KEY_DOES_NOT_EXIST_STATUS {
        code := NoSuchKey;
      } else {
        return Err(IllegalStateException("Unknown response status"));
      }
      var prevValue := ReturnPossiblePrevValue(transport, flags);
      if prevValue.Err? {
        return Err(prevValue.error);
      }
      r := Ok(VersionedOperationResponse(prevValue.value, code));
    }

    method Get(transport: Transport, key: Bytes, flags: Option<seq<HotRodFlag>>) returns (r: Result<Option<Bytes>>)
      requires msgIds.Valid()
      modifies transport, msgIds
      ensures msgIds.Valid() && msgIds.value == old(msgIds.value) + 1 && msgIds.issued == old(msgIds.issued) + [msgIds.value]
      ensures transport.output == old(transport.output) + Header(msgIds.value, GET_REQUEST, flags) + [ArrayField(key), FlushMarker]
      ensures Read(r, transport.input) == GetOutcome(old(transport.input), msgIds.value)
      ensures transport.releases == old(transport.releases) + 1
    {
      var status := SendKeyOperation(key, transport, GET_REQUEST, flags, GET_RESPONSE);
      if status.Err? {
        r := Err(status.error);
      } else if status.value == KEY_DOES_NOT_EXIST_STATUS {
        r := Ok(None);
      } else if status.value == NO_ERROR_STATUS {
        var v := transport.ReadByteArray();
        r := if v.Err? then Err(v.error) else Ok(Some(v.value));
      } else {
        r := Err(IllegalStateException("We should not reach here!"));
      }
      transport.Release();
    }

    method Remove(transport: Transport, key: Bytes, flags: Option<seq<HotRodFlag>>) returns (r: Result<Option<Bytes>>)
      requires msgIds.Valid()
      modifies transport, msgIds
      ensures msgIds.Valid() && msgIds.value == old(msgIds.value) + 1 && msgIds.issued == old(msgIds.issued) + [msgIds.value]
      ensures transport.output == old(transport.output) + Header(msgIds.value, REMOVE_REQUEST, flags) + [ArrayField(key), FlushMarker]
      ensures Read(r, transport.input) == RemoveOutcome(old(transport.input), msgIds.value, flags)
      ensures transport.releases == old(transport.releases) + 1
    {
      var status := SendKeyOperation(key, transport, REMOVE_REQUEST, flags, REMOVE_RESPONSE);
      if status.Err? {
        r := Err(status.error);
      } else if status.value == KEY_DOES_NOT_EXIST_STATUS {
        r := Ok(None);
      } else if status.value == NO_ERROR_STATUS {
        r := ReturnPossiblePrevValue(transport, flags);
      } else {
        r := Err(IllegalStateException("We should not reach here!"));
      }
      transport.Release();
    }

    method ContainsKey(transport: Transport, key: Bytes, flags: Option<seq<HotRodFlag>>) returns (r: Result<bool>)
      requires msgIds.Valid()
      modifies transport, msgIds
      ensures msgIds.Valid() && msgIds.value == old(msgIds.value) + 1 && msgIds.issued == old(msgIds.issued) + [msgIds.value]
      ensures transport.output == old(transport.output) + Header(msgIds.value, CONTAINS_KEY_REQUEST, flags) + [ArrayField(key), FlushMarker]
      ensures Read(r, transport.input) == ContainsKeyOutcome(old(transport.input), msgIds.value)
      ensures transport.releases == old(transport.releases) + 1
    {
      var status := SendKeyOperation(key, transport, CONTAINS_KEY_REQUEST, flags, CONTAINS_KEY_RESPONSE);
      if status.Err? {
        r := Err(status.error);
      } else if status.value == KEY_DOES_NOT_EXIST_STATUS {
        r := Ok(false);
      } else if status.value == NO_ERROR_STATUS {
        r := Ok(true);
      } else {
        r := Err(IllegalStateException("We should not reach here!"));
      }
      transport.Release();
    }

    method GetWithVersion(transport: Transport, key: Bytes, flags: Option<seq<HotRodFlag>>)
      returns (r: Result<Option<BinaryVersionedValue>>)
      requires msgIds.Valid()
      modifies transport, msgIds
      ensures msgIds.Valid() && msgIds.value == old(msgIds.value) + 1 && msgIds.issued == old(msgIds.issued) + [msgIds.value]
      ensures transport.output == old(transport.output) + Header(msgIds.value, GET_WITH_CAS_REQUEST, flags) + [ArrayField(key), FlushMarker]
      ensures Read(r, transport.input) == GetWithVersionOutcome(old(transport.input), msgIds.value)
      ensures transport.releases == old(transport.releases) + 1
    {
      var status := SendKeyOperation(key, transport, GET_WITH_CAS_REQUEST, flags, GET_WITH_CAS_RESPONSE);
      if status.Err? {
        r := Err(status.error);
      } else if status.value == KEY_DOES_NOT_EXIST_STATUS {
        r := Ok(None);
      } else if status.value == NO_ERROR_STATUS {
        var version := transport.ReadVLong();
        if version.Err? {
          r := Err(version.error);
        } else {
          var v := transport.ReadByteArray();
          r := if v.Err? then Err(v.error) else Ok(Some(BinaryVersionedValue(version.value, v.value)));
        }
      } else {
        r := Err(IllegalStateException("We should not reach here!"));
      }
      transport.Release();
    }

    method Put(transport: Transport, key: Bytes, value: Bytes, lifespan: int, maxIdle: int,
               flags: Option<seq<HotRodFlag>>) returns (r: Result<Option<Bytes>>)
      requires msgIds.Valid()
      modifies transport, msgIds
      ensures msgIds.Valid() && msgIds.value == old(msgIds.value) + 1 && msgIds.issued == old(msgIds.issued) + [msgIds.value]
      ensures transport.output == old(transport.output) + Header(msgIds.value, PUT_REQUEST, flags)
        + [ArrayField(key), VIntField(lifespan), VIntField(maxIdle), ArrayField(value), FlushMarker]
      ensures Read(r, transport.input) == PutOutcome(old(transport.input), msgIds.value, flags)
      ensures transport.releases == old(transport.releases) + 1
    {
      var status := SendPutOperation(key, value, transport, PUT_REQUEST, PUT_RESPONSE, lifespan, maxIdle, flags);
      if status.Err? {
        r := Err(status.error);
      } else if status.value != NO_ERROR_STATUS {
        r := Err(InvalidResponseException("Unexpected response status"));
      } else {
        r := ReturnPossiblePrevValue(transport, flags);
      }
      transport.Release();
    }

    /** putIfAbsent (opCode PUT_IF_ABSENT_REQUEST) and replace (opCode REPLACE_REQUEST), which
        differ only in their opcodes. */
    method ConditionalPut(transport: Transport, opCode: int, opRespCode: int, key: Bytes, value: Bytes,
                          lifespan: int, maxIdle: int, flags: Option<seq<HotRodFlag>>) returns (r: Result<Option<Bytes>>)
      requires (opCode, opRespCode) == (PUT_IF_ABSENT_REQUEST, PUT_IF_ABSENT_RESPONSE)
            || (opCode, opRespCode) == (REPLACE_REQUEST, REPLACE_RESPONSE)
      requires msgIds.Valid()
      modifies transport, msgIds
      ensures msgIds.Valid() && msgIds.value == old(msgIds.value) + 1 && msgIds.issued == old(msgIds.issued) + [msgIds.value]
      ensures transport.output == old(transport.output) + Header(msgIds.value, opCode, flags)
        + [ArrayField(key), VIntField(lifespan), VIntField(maxIdle), ArrayField(value), FlushMarker]
      ensures Read(r, transport.input) == ConditionalPutOutcome(old(transport.input), msgIds.value, opRespCode, flags, AsWritten)
      ensures transport.releases == old(transport.releases) + 1
    {
      var status := SendPutOperation(key, value, transport, opCode, opRespCode, lifespan, maxIdle, flags);
      if status.Err? {
        r := Err(status.error);
      } else if status.value == NO_ERROR_STATUS {
        r := ReturnPossiblePrevValue(transport, flags);
      } else if status.value == NOT_PUT_REMOVED_REPLACED_STATUS {
        r := Ok(None);
      } else {
        r := Err(IllegalStateException("We should not reach here!"));
      }
      transport.Release();
    }

    method ReplaceIfUnmodified(transport: Transport, key: Bytes, value: Bytes, lifespan: int, maxIdle: int,
                               version: int, flags: Option<seq<HotRodFlag>>) returns (r: Result<VersionedOperationResponse>)
      requires msgIds.Valid()
      modifies transport, msgIds
      ensures msgIds.Valid() && msgIds.value == old(msgIds.value) + 1 && msgIds.issued == old(msgIds.issued) + [msgIds.value]
      ensures transport.output == old(transport.output) + Header(msgIds.value, REPLACE_IF_UNMODIFIED_REQUEST, flags)
        + [ArrayField(key), VIntField(lifespan), VIntField(maxIdle), VLongField(version), ArrayField(value)]
      ensures Read(r, transport.input)
              == VersionedOutcome(old(transport.input), msgIds.value, REPLACE_IF_UNMODIFIED_RESPONSE, flags, AsWritten)
      ensures transport.releases == old(transport.releases) + 1
    {
      var messageId := WriteHeader(transport, REPLACE_IF_UNMODIFIED_REQUEST, flags);
      transport.Write(ArrayField(key));
      transport.Write(VIntField(lifespan));
      transport.Write(VIntField(maxIdle));
      transport.Write(VLongField(version));
      transport.Write(ArrayField(value));
      r := ReturnVersionedOperationResponse(transport, messageId, flags);
      transport.Release();
    }

    method RemoveIfUnmodified(transport: Transport, key: Bytes, version: int, flags: Option<seq<HotRodFlag>>)
      returns (r: Result<VersionedOperationResponse>)
      requires msgIds.Valid()
      modifies transport, msgIds
      ensures msgIds.Valid() && msgIds.value == old(msgIds.value) + 1 && msgIds.issued == old(msgIds.issued) + [msgIds.value]
      ensures transport.output == old(transport.output) + Header(msgIds.value, REMOVE_IF_UNMODIFIED_REQUEST, flags)
        + [ArrayField(key), VLongField(version)]
      ensures Read(r, transport.input)
              == VersionedOutcome(old(transport.input), msgIds.value, REPLACE_IF_UNMODIFIED_RESPONSE, flags, AsWritten)
      ensures transport.releases == old(transport.releases) + 1
    {
      var messageId := WriteHeader(transport, REMOVE_IF_UNMODIFIED_REQUEST, flags);
      transport.Write(ArrayField(key));
      transport.Write(VLongField(version));
      r := ReturnVersionedOperationResponse(transport, messageId, flags);
      transport.Release();
    }

    method Clear(transport: Transport, flags: Option<seq<HotRodFlag>>) returns (r: Result<()>)
      requires msgIds.Valid()
      modifies transport, msgIds
      ensures msgIds.Valid() && msgIds.value == old(msgIds.value) + 1 && msgIds.issued == old(msgIds.issued) + [msgIds.value]
      ensures transport.output == old(transport.output) + Header(msgIds.value, CLEAR_REQUEST, flags)
      ensures Read(r, transport.input) == ClearOutcome(old(transport.input), msgIds.value)
      ensures transport.releases == old(transport.releases) + 1
    {
      var messageId := WriteHeader(transport, CLEAR_REQUEST, flags);
      var status := ReadHeaderAndValidate(transport, messageId, CLEAR_RESPONSE);
      r := if status.Err? then Err(status.error) else Ok(());
      transport.Release();
    }

    /** ping(): sent without flags. */
    method Ping(transport: Transport) returns (r: Result<bool>)
      requires msgIds.Valid()
      modifies transport, msgIds
      ensures msgIds.Valid() && msgIds.value == old(msgIds.value) + 1 && msgIds.issued == old(msgIds.issued) + [msgIds.value]
      ensures transport.output == old(transport.output) + Header(msgIds.value, PING_REQUEST, Some([]))
      ensures Read(r, transport.input) == PingOutcome(old(transport.input), msgIds.value)
      ensures transport.releases == old(transport.releases) + 1
    {
      var messageId := WriteHeader(transport, PING_REQUEST, Some([]));
      var respStatus := ReadHeaderAndValidate(transport, messageId, PING_RESPONSE);
      if respStatus.Err? {
        r := if respStatus.error == TransportException then Ok(false) else Err(respStatus.error);
      } else if respStatus.value == NO_ERROR_STATUS {
        r := Ok(true);
      } else {
        r := Err(IllegalStateException("Unknown response status"));
      }
      transport.Release();
    }

    /** stats(): sent without flags; the reply is validated against CLEAR_RESPONSE. */
    method Stats(transport: Transport) returns (r: Result<map<string, int>>)
      requires msgIds.Valid()
      modifies transport, msgIds
      ensures msgIds.Valid() && msgIds.value == old(msgIds.value) + 1 && msgIds.issued == old(msgIds.issued) + [msgIds.value]
      ensures transport.output == old(transport.output) + Header(msgIds.value, STATS_REQUEST, Some([]))
      ensures Read(r, transport.input) == StatsOutcome(old(transport.input), msgIds.value, CLEAR_RESPONSE)
      ensures transport.releases == old(transport.releases) + 1
    {
      var messageId := WriteHeader(transport, STATS_REQUEST, Some([]));
      var status := ReadHeaderAndValidate(transport, messageId, CLEAR_RESPONSE);
      if status.Err? {
        r := Err(status.error);
        transport.Release();
        return;
      }
      var nrOfStats := transport.ReadVInt();
      if nrOfStats.Err? {
        r := Err(nrOfStats.error);
        transport.Release();
        return;
      }
      ghost var start, written := transport.input, transport.output;
      var result: map<string, int> := map[];
      var i := 0;
      while i < nrOfStats.value
        invariant ReadStats(transport.input, nrOfStats.value - i, result) == ReadStats(start, nrOfStats.value, map[])
        invariant msgIds.Valid() && msgIds.value == messageId && msgIds.issued == old(msgIds.issued) + [messageId]
        invariant transport.output == written && transport.releases == old(transport.releases)
        decreases nrOfStats.value - i
      {
        var name := transport.ReadString();
        if name.Err? {
          r := Err(name.error);
          transport.Release();
          return;
        }
        var value := transport.ReadVLong();
        if value.Err? {
          r := Err(value.error);
          transport.Release();
          return;
        }
        result := result[name.value := value.value];
        i := i + 1;
      }
      r := Ok(result);
      transport.Release();
    }
  }
}
