/** The input message: a run of frames starting at a tick, and its wire form as a sequence of fields. */
module InputMsg {
  import opened TickService
  import opened Wrappers

  /** One value on the wire: a ushort, or a length-prefixed ushort array. */
  datatype Field = U16(n: UShort) | U16s(frames: seq<bv16>)

  /** The three fields of a message, in the order Serialize writes them. */
  function Encode(startTick: UShort, numTicks: UShort, inputs: seq<bv16>): (w: seq<Field>)
    ensures |w| == 3
  {
    [U16(startTick), U16(numTicks), U16s(inputs)]
  }

  /** What Deserialize reads from `w`, or None when a read finds the wrong kind of field or runs off the end. */
  function Decode(w: seq<Field>): (r: Option<(UShort, UShort, seq<bv16>)>)
    ensures r.Some? <==> |w| >= 3 && w[0].U16? && w[1].U16? && w[2].U16s?
  {
    if |w| >= 3 && w[0].U16? && w[1].U16? && w[2].U16s? then Some((w[0].n, w[1].n, w[2].frames))
    else None
  }

  /** The fields round-trip through the wire. */
  lemma DecodeEncode(startTick: UShort, numTicks: UShort, inputs: seq<bv16>)
    ensures Decode(Encode(startTick, numTicks, inputs)) == Some((startTick, numTicks, inputs))
  {
  }

  /** Decoding reads only the first three fields, so whatever follows a message is left for the next reader. */
  lemma {:induction false} DecodeIgnoresRest(startTick: UShort, numTicks: UShort, inputs: seq<bv16>, rest: seq<Field>)
    ensures Decode(Encode(startTick, numTicks, inputs) + rest) == Some((startTick, numTicks, inputs))
  {
    var w := Encode(startTick, numTicks, inputs) + rest;
    assert w[0] == U16(startTick) && w[1] == U16(numTicks) && w[2] == U16s(inputs);
  }

  /** The tick one past the last tick of a range. InputMsg.cs does not define it; it is taken to be
      `AddTick(startTick, numTicks)`. */
  function EndTickExclusiveOf(startTick: UShort, numTicks: UShort): (r: Tick)
    ensures startTick + numTicks < MaxTick ==> r == startTick + numTicks
  {
    AddTick(startTick, numTicks)
  }

  /** The last tick of a range: one tick before its exclusive end, with wrapping. */
  function EndTickOf(startTick: UShort, numTicks: UShort): (r: Tick)
    ensures 0 < startTick + numTicks < MaxTick ==> r == startTick + numTicks - 1
    ensures AddTick(r, 1) == EndTickExclusiveOf(startTick, numTicks)
  {
    SubtractThenAdd(EndTickExclusiveOf(startTick, numTicks), 1);
    SubtractTick(AddTick(startTick, numTicks), 1)
  }

  /** A one-tick message ends where it starts. */
  lemma {:induction false} OneTickEndsAtStart(startTick: Tick)
    ensures EndTickOf(startTick, 1) == startTick
  {
    AddThenSubtract(startTick, 1);
  }

  class InputMsg {
    var startTick: UShort
    var numTicks: UShort
    /** Not tied to numTicks: nothing checks that there are numTicks frames. */
    var inputs: seq<bv16>

    /** The parameterless constructor that Deserialize starts from. */
    constructor Empty()
      ensures startTick == 0 && numTicks == 0 && inputs == []
    {
      startTick, numTicks, inputs := 0, 0, [];
    }

    constructor (startTick: UShort, numTicks: UShort, inputs: seq<bv16>)
      requires numTicks > 0
      ensures this.startTick == startTick && this.numTicks == numTicks && this.inputs == inputs
    {
      this.startTick, this.numTicks, this.inputs := startTick, numTicks, inputs;
    }

    /** The message's last tick, one wrapping step before its exclusive end. */
    function EndTick(): (r: Tick)
      reads this
      ensures 0 < startTick + numTicks < MaxTick ==> r == startTick + numTicks - 1
      ensures AddTick(r, 1) == EndTickExclusive()
    {
      EndTickOf(startTick, numTicks)
    }

    /** The tick one past the message's range. */
    function EndTickExclusive(): (r: Tick)
      reads this
      ensures startTick + numTicks < MaxTick ==> r == startTick + numTicks
    {
      EndTickExclusiveOf(startTick, numTicks)
    }

    /** Writes the fields in order and changes nothing. */
    method Serialize() returns (w: seq<Field>)
      ensures w == Encode(startTick, numTicks, inputs)
      ensures Decode(w) == Some((startTick, numTicks, inputs))
    {
      w := [U16(startTick), U16(numTicks), U16s(inputs)];
      DecodeEncode(startTick, numTicks, inputs);
    }

    /** Reads the fields in the order Serialize writes them. Each field is stored as soon as it is
        read, so a read that fails (`ok` false) leaves the fields read before it assigned. */
    method Deserialize(w: seq<Field>) returns (ok: bool)
      modifies this
      ensures ok <==> Decode(w).Some?
      ensures ok ==> (startTick, numTicks, inputs) == Decode(w).value
      ensures !ok ==> inputs == old(inputs)
      ensures !ok && |w| >= 1 && w[0].U16? ==> startTick == w[0].n
      ensures !ok && |w| >= 2 && w[0].U16? && w[1].U16? ==> numTicks == w[1].n
      ensures !(|w| >= 1 && w[0].U16?) ==> startTick == old(startTick) && numTicks == old(numTicks)
      ensures !(|w| >= 2 && w[0].U16? && w[1].U16?) ==> numTicks == old(numTicks)
    {
      if |w| < 1 || !w[0].U16? {
        return false;
      }
      startTick := w[0].n;
      if |w| < 2 || !w[1].U16? {
        return false;
      }
      numTicks := w[1].n;
      if |w| < 3 || !w[2].U16s? {
        return false;
      }
      inputs := w[2].frames;
      return true;
    }
  }

  /** A message deserialized from what another serialized carries the same fields. */
  method RoundTrip(m: InputMsg) returns (copy: InputMsg)
    ensures fresh(copy)
    ensures copy.startTick == m.startTick && copy.numTicks == m.numTicks && copy.inputs == m.inputs
  {
    var w := m.Serialize();
    copy := new InputMsg.Empty();
    var ok := copy.Deserialize(w);
    assert ok;
  }
}
