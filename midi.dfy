/** The MIDI bridge: normalized samples are queued in a FIFO buffer, and on
    every tick of a timer running at the sample rate the front sample is sent
    to every output port as a Pitch Bend Change message (MIDI 1.0 Detailed
    Specification, "Pitch Bend Change": status 0xEn followed by the 14-bit
    value as a 7-bit low byte and a 7-bit high byte). */
module Midi {
  import opened Bytes

  /** Pitch Bend Change on channel 0. */
  const PITCH_BEND: int := 0xE0
  /** The rate addModulationData assumes when its parameters name none. */
  const DEFAULT_SAMPLERATE: int := 130

  /** `Math.floor(0x2000 + value * 0x1fff)`: a sample in [-1, 1] mapped onto
      the 14-bit bend range around the centre 0x2000. */
  function PitchValue(value: real): (r: int)
    ensures -1.0 <= value <= 1.0 ==> 1 <= r <= 0x3FFF
    ensures 0.0 <= value ==> 0x2000 <= r
    ensures value < 0.0 ==> r < 0x2000
  {
    (0x2000 as real + value * 0x1fff as real).Floor
  }

  /** The message sendPitch sends for one buffered sample. A sample that was
      `undefined` (an empty row) becomes NaN, and both `NaN >> 7` and
      `NaN & 0x7f` are 0. `x & 0x7f` keeps the low seven bits of ToInt32(x). */
  function PitchBend(sample: Option<real>): (message: seq<int>)
    ensures |message| == 3 && message[0] == PITCH_BEND
    ensures 0 <= message[1] < 128
    ensures sample.None? ==> message[1] == 0 && message[2] == 0
  {
    match sample
    case None => [PITCH_BEND, 0, 0]
    case Some(value) =>
      var pitchValue := PitchValue(value);
      [PITCH_BEND, ToInt32(pitchValue) % 128, ShiftRight(pitchValue, 7)]
  }

  /** The two data bytes put back together give the pitch value: the low
      byte holds its low seven bits and the high byte the rest. */
  lemma PitchSplit(value: real)
    requires -TWO_31 <= PitchValue(value) < TWO_31
    ensures var message := PitchBend(Some(value));
      && 0 <= message[1] < 128
      && message[1] + 128 * message[2] == PitchValue(value)
  {
    var p := PitchValue(value);
    ToInt32InRange(p);
    assert Pow2(7) == 128 by {
      assert Pow2(4) == 16;
    }
  }

  /** A sample in [-1, 1] gives a pitch value in [1, 16383], so both data
      bytes are valid 7-bit MIDI data bytes. */
  lemma PitchRange(value: real)
    requires -1.0 <= value <= 1.0
    ensures 1 <= PitchValue(value) <= 0x3FFF
    ensures var message := PitchBend(Some(value));
      && 0 <= message[1] < 128 && 0 <= message[2] < 128
  {
    var x := 0x2000 as real + value * 0x1fff as real;
    assert 1.0 <= x <= 16383.0;
    PitchSplit(value);
  }

  /** Silence is the centre of the bend range; the bounds of [-1, 1] reach
      one step above the bottom and the very top. */
  lemma PitchAnchors()
    ensures PitchBend(Some(0.0)) == [PITCH_BEND, 0, 64]
    ensures PitchBend(Some(1.0)) == [PITCH_BEND, 127, 127]
    ensures PitchBend(Some(-1.0)) == [PITCH_BEND, 1, 0]
  {
    assert PitchValue(0.0) == 0x2000;
    assert PitchValue(1.0) == 0x3FFF;
    assert PitchValue(-1.0) == 1;
    PitchSplit(0.0);
    PitchSplit(1.0);
    PitchSplit(-1.0);
  }

  /** One `port.send(message)`. */
  datatype MidiMessage = MidiMessage(port: string, message: seq<int>)

  /** The same message sent to each port, in the order of the ports. */
  function Broadcast(ports: seq<string>, message: seq<int>): (sends: seq<MidiMessage>)
    ensures |sends| == |ports|
    ensures forall k :: 0 <= k < |ports| ==> sends[k] == MidiMessage(ports[k], message)
  {
    if ports == [] then []
    else Broadcast(ports[..|ports| - 1], message) + [MidiMessage(ports[|ports| - 1], message)]
  }

  /** `data.map(([value]) => value)`: the first component of each sample,
      `undefined` for an empty one. */
  function Firsts(data: seq<seq<real>>): (values: seq<Option<real>>)
    ensures |values| == |data|
    ensures forall k :: 0 <= k < |data| ==>
      values[k] == if data[k] == [] then None else Some(data[k][0])
  {
    if data == [] then []
    else [if data[0] == [] then None else Some(data[0][0])] + Firsts(data[1..])
  }

  /** Queueing two batches one after the other queues their concatenation. */
  lemma {:induction false} FirstsAppend(a: seq<seq<real>>, b: seq<seq<real>>)
    ensures Firsts(a + b) == Firsts(a) + Firsts(b)
    decreases |a|
  {
    if a != [] {
      assert (a + b)[1..] == a[1..] + b;
      FirstsAppend(a[1..], b);
    }
  }

  class Midi {
    /** The ids of the output ports, in the order access listed them. */
    var outputs: seq<string>
    /** Every message sent to a port, in order. */
    var sent: seq<MidiMessage>
    /** Samples waiting to be played; `None` is an `undefined` sample. */
    var buffer: seq<Option<real>>
    /** `_samplerate`; `None` is its initial `null`. */
    var samplerate: Option<int>
    var samplerateChanged: bool
    /** The rate whose period `1000 / rate` the playback timer was last
        scheduled with; `None` while no timer runs. */
    var interval: Option<int>

    /** The flag is only raised by the setter, which stores a rate first. */
    predicate Valid()
      reads this
    {
      samplerateChanged ==> samplerate.Some?
    }

    constructor ()
      ensures Valid()
      ensures outputs == [] && sent == [] && buffer == []
      ensures samplerate == None && !samplerateChanged && interval == None
    {
      outputs := [];
      sent := [];
      buffer := [];
      samplerate := None;
      samplerateChanged := false;
      interval := None;
    }

    /** The output loop of onAccess: each port access lists is appended. */
    method AddOutputs(ports: seq<string>)
      modifies this
      requires Valid()
      ensures Valid()
      ensures outputs == old(outputs) + ports
      ensures sent == old(sent) && buffer == old(buffer)
      ensures samplerate == old(samplerate) && samplerateChanged == old(samplerateChanged)
      ensures interval == old(interval)
    {
      var all := outputs;
      for k := 0 to |ports|
        invariant all == old(outputs) + ports[..k]
      {
        assert ports[..k + 1] == ports[..k] + [ports[k]];
        all := all + [ports[k]];
      }
      assert ports[..|ports|] == ports;
      outputs := all;
    }

    /** sendPitch: the bend message for the sample goes to every output, in order. */
    method SendPitch(sample: Option<real>)
      modifies this
      ensures sent == old(sent) + Broadcast(outputs, PitchBend(sample))
      ensures outputs == old(outputs) && buffer == old(buffer)
      ensures samplerate == old(samplerate) && samplerateChanged == old(samplerateChanged)
      ensures interval == old(interval)
    {
      var message := PitchBend(sample);
      var log := sent;
      for k := 0 to |outputs|
        invariant log == old(sent) + Broadcast(outputs[..k], message)
      {
        assert outputs[..k + 1][..k] == outputs[..k];
        log := log + [MidiMessage(outputs[k], message)];
      }
      assert outputs[..|outputs|] == outputs;
      sent := log;
    }

    /** playBuffer, one timer tick: the front sample, if any, is removed and
        sent; a pending rate change reschedules the timer and clears the flag. */
    method PlayBuffer()
      modifies this
      requires Valid()
      ensures Valid()
      ensures old(buffer) != [] ==>
        && buffer == old(buffer)[1..]
        && sent == old(sent) + Broadcast(outputs, PitchBend(old(buffer)[0]))
      ensures old(buffer) == [] ==> buffer == [] && sent == old(sent)
      ensures !samplerateChanged
      ensures interval == if old(samplerateChanged) then old(samplerate) else old(interval)
      ensures old(samplerateChanged) ==> interval.Some?
      ensures outputs == old(outputs) && samplerate == old(samplerate)
    {
      if |buffer| > 0 {
        var front := buffer[0];
        buffer := buffer[1..];
        SendPitch(front);
      }
      if samplerateChanged {
        interval := samplerate;
        samplerateChanged := false;
      }
    }

    /** The samplerate setter: a different rate is stored and flagged for
        rescheduling; the first rate ever set also starts the timer. */
    method SetSamplerate(rate: int)
      modifies this
      requires Valid()
      ensures Valid()
      ensures samplerate == Some(rate)
      ensures samplerateChanged == (old(samplerateChanged) || old(samplerate) != Some(rate))
      ensures interval == if old(interval) == None then Some(rate) else old(interval)
      ensures outputs == old(outputs) && sent == old(sent) && buffer == old(buffer)
    {
      if Some(rate) != samplerate {
        samplerate := Some(rate);
        samplerateChanged := true;
      }
      if interval == None {
        interval := Some(rate);
      }
    }

    /** addModulationData: the first component of each sample joins the back
        of the buffer in order, and the setter runs only when the rate (130
        when the parameters name none) differs from the current one. */
    method AddModulationData(data: seq<seq<real>>, samplerateParameter: Option<int>)
      modifies this
      requires Valid()
      ensures Valid()
      ensures buffer == old(buffer) + Firsts(data)
      ensures var rate := if samplerateParameter.Some? then samplerateParameter.value else DEFAULT_SAMPLERATE;
        && samplerate == Some(rate)
        && samplerateChanged == (old(samplerateChanged) || old(samplerate) != Some(rate))
        && interval == if old(samplerate) != Some(rate) && old(interval) == None then Some(rate) else old(interval)
      ensures outputs == old(outputs) && sent == old(sent)
    {
      buffer := buffer + Firsts(data);
      var rate := if samplerateParameter.Some? then samplerateParameter.value else DEFAULT_SAMPLERATE;
      if samplerate != Some(rate) {
        SetSamplerate(rate);
      }
    }
  }
}
