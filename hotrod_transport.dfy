/** The Hot Rod client's view of a connection, and its message-id counter.

    The transport is an in-memory pair of queues of already-decoded fields:
    what the client wrote (`output`, with a marker for each flush) and what the
    server sent and the client has not read yet (`input`). The byte-level
    encodings (variable-length ints and longs, length-prefixed arrays) belong
    to the transport implementation and are not part of this model. A read
    that finds no field of the expected kind at the head of the input raises
    TransportException, standing for the I/O failure the socket would report. */
module HotRodTransport {
  import opened Base

  type Bytes = seq<bv8>

  /** One decoded protocol field. */
  datatype Field =
    | ByteField(b: int)
    | VIntField(i: int)
    | VLongField(l: int)
    | ArrayField(bytes: Bytes)
    | StringField(s: string)
    | FlushMarker

  /** The outcome of reading from the input, and what is left of it. */
  datatype Read<+T> = Read(result: Result<T>, rest: seq<Field>)

  function ReadByteFrom(input: seq<Field>): (r: Read<int>)
    ensures r.result.Ok? <==> |input| > 0 && input[0].ByteField?
    ensures r.result.Ok? ==> r.result.value == input[0].b && r.rest == input[1..]
    ensures r.result.Err? ==> r == Read(Err(TransportException), input)
  {
    if |input| > 0 && input[0].ByteField? then Read(Ok(input[0].b), input[1..])
    else Read(Err(TransportException), input)
  }

  function ReadVIntFrom(input: seq<Field>): (r: Read<int>)
    ensures r.result.Ok? <==> |input| > 0 && input[0].VIntField?
    ensures r.result.Ok? ==> r.result.value == input[0].i && r.rest == input[1..]
    ensures r.result.Err? ==> r == Read(Err(TransportException), input)
  {
    if |input| > 0 && input[0].VIntField? then Read(Ok(input[0].i), input[1..])
    else Read(Err(TransportException), input)
  }

  function ReadVLongFrom(input: seq<Field>): (r: Read<int>)
    ensures r.result.Ok? <==> |input| > 0 && input[0].VLongField?
    ensures r.result.Ok? ==> r.result.value == input[0].l && r.rest == input[1..]
    ensures r.result.Err? ==> r == Read(Err(TransportException), input)
  {
    if |input| > 0 && input[0].VLongField? then Read(Ok(input[0].l), input[1..])
    else Read(Err(TransportException), input)
  }

  function ReadArrayFrom(input: seq<Field>): (r: Read<Bytes>)
    ensures r.result.Ok? <==> |input| > 0 && input[0].ArrayField?
    ensures r.result.Ok? ==> r.result.value == input[0].bytes && r.rest == input[1..]
    ensures r.result.Err? ==> r == Read(Err(TransportException), input)
  {
    if |input| > 0 && input[0].ArrayField? then Read(Ok(input[0].bytes), input[1..])
    else Read(Err(TransportException), input)
  }

  function ReadStringFrom(input: seq<Field>): (r: Read<string>)
    ensures r.result.Ok? <==> |input| > 0 && input[0].StringField?
    ensures r.result.Ok? ==> r.result.value == input[0].s && r.rest == input[1..]
    ensures r.result.Err? ==> r == Read(Err(TransportException), input)
  {
    if |input| > 0 && input[0].StringField? then Read(Ok(input[0].s), input[1..])
    else Read(Err(TransportException), input)
  }

  class Transport {
    /** The fields written, in order, with a marker for each flush. */
    var output: seq<Field>
    /** The fields the server sent that have not been read yet. */
    var input: seq<Field>
    /** How many times the transport was handed back to its pool. */
    var releases: nat

    constructor (serverReply: seq<Field>)
      ensures output == [] && input == serverReply && releases == 0
    {
      output := [];
      input := serverReply;
      releases := 0;
    }

    method Write(f: Field)
      modifies this`output
      ensures output == old(output) + [f]
    {
      output := output + [f];
    }

    method Flush()
      modifies this`output
      ensures output == old(output) + [FlushMarker]
    {
      output := output + [FlushMarker];
    }

    method ReadByte() returns (r: Result<int>)
      modifies this`input
      ensures Read(r, input) == ReadByteFrom(old(input))
    {
      var rd := ReadByteFrom(input);
      r, input := rd.result, rd.rest;
    }

    method ReadVInt() returns (r: Result<int>)
      modifies this`input
      ensures Read(r, input) == ReadVIntFrom(old(input))
    {
      var rd := ReadVIntFrom(input);
      r, input := rd.result, rd.rest;
    }

    method ReadVLong() returns (r: Result<int>)
      modifies this`input
      ensures Read(r, input) == ReadVLongFrom(old(input))
    {
      var rd := ReadVLongFrom(input);
      r, input := rd.result, rd.rest;
    }

    method ReadByteArray() returns (r: Result<Bytes>)
      modifies this`input
      ensures Read(r, input) == ReadArrayFrom(old(input))
    {
      var rd := ReadArrayFrom(input);
      r, input := rd.result, rd.rest;
    }

    method ReadString() returns (r: Result<string>)
      modifies this`input
      ensures Read(r, input) == ReadStringFrom(old(input))
    {
      var rd := ReadStringFrom(input);
      r, input := rd.result, rd.rest;
    }

    method Release()
      modifies this`releases
      ensures releases == old(releases) + 1
    {
      releases := releases + 1;
    }
  }

  /** The process-wide message-id counter (an AtomicLong), with the ids it has handed out. */
  class MessageIdCounter {
    var value: nat
    var issued: seq<nat>

    ghost predicate Valid()
      reads this
    {
      forall i | 0 <= i < |issued| :: issued[i] <= value
    }

    constructor ()
      ensures Valid() && value == 0 && issued == []
    {
      value := 0;
      issued := [];
    }

    /** incrementAndGet(): a fresh id, greater than every id handed out before. */
    method IncrementAndGet() returns (id: nat)
      requires Valid()
      modifies this
      ensures Valid()
      ensures id == value == old(value) + 1
      ensures issued == old(issued) + [id]
      ensures forall i | 0 <= i < |old(issued)| :: old(issued)[i] < id
    {
      value := value + 1;
      issued := issued + [value];
      id := value;
    }
  }
}
