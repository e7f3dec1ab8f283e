/** The Open Pixel Control server factory: the context it builds from the
    configuration (with its defaults), the step it returns, and the handler
    for an incoming datagram, which decodes the 4-byte OPC header and checks
    the channel against the number of panels. */
module OpcServer {
  import opened Prelude
  import opened Context
  import opened Util
  import opened DriverFactory

  /** The port listened on when the configuration gives none. */
  const DefaultOpcPort := 42069

  /** The number of panels addressable when the configuration gives none. */
  const DefaultMaxPanels := 4

  /** JavaScript `v || d` for a configured number: a missing value and 0 are
      falsy and give the default; any other value is kept. */
  function OrDefault(v: Option<int>, d: int): (r: int)
    ensures v.Some? && v.value != 0 ==> r == v.value
    ensures v.None? || v.value == 0 ==> r == d
  {
    if v.Some? && v.value != 0 then v.value else d
  }

  /** The context opcDriverFactory builds at time `now`: every configured
      field, then the two defaulted settings, the counters zeroed, both
      timestamps at `now` and full brightness. */
  function OpcContext(config: Fields, now: int): (c: Fields)
    ensures c.opcPort.Some? && c.opcPort.value != 0
    ensures c.maxPanels.Some? && c.maxPanels.value != 0
    ensures c.frames == 0 && c.start == now && c.lastPrint == Some(now)
  {
    config.(
      opcPort := Some(OrDefault(config.opcPort, DefaultOpcPort)),
      maxPanels := Some(OrDefault(config.maxPanels, DefaultMaxPanels)),
      frames := 0,
      rate := 0.0,
      start := now,
      lastPrint := Some(now),
      brightness := Some(1.0))
  }

  /** The port and panel count are the configured ones when those are truthy
      and the defaults otherwise; the counters start at zero, brightness at 1,
      and every other configured field is copied unchanged. */
  lemma OpcContextDefaults(config: Fields, now: int)
    ensures var c := OpcContext(config, now);
      && c.opcPort.Some? && c.maxPanels.Some?
      && (c.opcPort.value == DefaultOpcPort <==> config.opcPort.None? || config.opcPort.value in {0, DefaultOpcPort})
      && (c.maxPanels.value == DefaultMaxPanels <==> config.maxPanels.None? || config.maxPanels.value in {0, DefaultMaxPanels})
      && c.opcPort.value != 0 && c.maxPanels.value != 0
      && (config.opcPort.Some? && config.opcPort.value != 0 ==> c.opcPort == config.opcPort)
      && (config.maxPanels.Some? && config.maxPanels.value != 0 ==> c.maxPanels == config.maxPanels)
      && c.frames == 0 && c.rate == 0.0 && c.brightness == Some(1.0)
      && c.start == now && c.lastPrint == Some(now)
      && c.(opcPort := config.opcPort, maxPanels := config.maxPanels, frames := config.frames, rate := config.rate,
            start := config.start, lastPrint := config.lastPrint, brightness := config.brightness) == config
  {
  }

  /** Building a context from a context the factory built keeps its port and
      panel count: the defaults are applied once and stay put. */
  lemma OpcContextStable(config: Fields, now: int, later: int)
    ensures OpcContext(OpcContext(config, now), later).opcPort == OpcContext(config, now).opcPort
    ensures OpcContext(OpcContext(config, now), later).maxPanels == OpcContext(config, now).maxPanels
  {
  }

  /** Both timestamps of a fresh context are the time it was built, so the
      frame-rate logger cannot report before two seconds have passed. */
  lemma OpcContextFirstReport(config: Fields, now: int, t: int)
    requires now <= t
    ensures Reports(OpcContext(config, now), t) <==> t > now + 1
  {
  }

  /** opcDriverFactory(config, middleware): one context built as above, and a
      step that runs only the middleware (no driver is appended). The server
      setup, which only opens a socket, is not part of the model. */
  method OpcDriverFactory(config: Fields, middleware: seq<Stage>, now: int) returns (loop: RenderLoop)
    ensures fresh(loop.context)
    ensures loop.context.View() == OpcContext(config, now)
    ensures loop.stages == middleware
  {
    loop := new RenderLoop(OpcContext(config, now), middleware);
  }

  // ---------------------------------------------------------------------
  // The datagram handler
  // ---------------------------------------------------------------------

  /** The header fields read from a datagram; a field that lies past the end
      of the datagram reads as null (None). */
  datatype Header = Header(channel: Option<byte>, command: Option<byte>, length: Option<nat>)

  /** `parse(msg).word8u('channel').word8u('command').word16bu('length').vars()`. */
  function DecodeHeader(msg: seq<byte>): (h: Header)
    ensures h.channel.Some? <==> |msg| >= 1
    ensures h.command.Some? <==> |msg| >= 2
    ensures h.length.Some? <==> |msg| >= 4
    ensures h.length.Some? ==> h.length.value < 0x1_0000
  {
    Header(
      if |msg| >= 1 then Some(msg[0]) else None,
      if |msg| >= 2 then Some(msg[1]) else None,
      if |msg| >= 4 then Some(msg[2] as nat * 256 + msg[3] as nat) else None)
  }

  /** The four header bytes of an OPC message: channel, command, and the
      payload length as a big-endian 16-bit number. */
  function EncodeHeader(channel: byte, command: byte, length: nat): (bytes: seq<byte>)
    requires length < 0x1_0000
    ensures |bytes| == 4
  {
    [channel, command, length / 256, length % 256]
  }

  /** Decoding reads back the header that was encoded, whatever payload
      follows it. */
  lemma DecodeEncodeHeader(channel: byte, command: byte, length: nat, payload: seq<byte>)
    requires length < 0x1_0000
    ensures DecodeHeader(EncodeHeader(channel, command, length) + payload)
         == Header(Some(channel), Some(command), Some(length))
  {
  }

  /** Conversely, the first four bytes of a datagram are the encoding of the
      header decoded from it: the decode loses nothing. */
  lemma EncodeDecodeHeader(msg: seq<byte>)
    requires |msg| >= 4
    ensures var h := DecodeHeader(msg);
      EncodeHeader(h.channel.value, h.command.value, h.length.value) == msg[..4]
  {
    var h := DecodeHeader(msg);
    var len := h.length.value;
    assert len / 256 == msg[2] && len % 256 == msg[3];
  }

  /** `header.channel > max_panels`: a null channel compares as 0, and any
      comparison with an undefined bound is false. So a missing bound flags
      nothing, and for a bound of at least 0 neither a null channel nor the
      OPC broadcast channel 0 is ever flagged. */
  predicate ChannelFlagged(channel: Option<byte>, maxPanels: Option<int>): (flagged: bool)
    ensures maxPanels.None? ==> !flagged
    ensures maxPanels.Some? && maxPanels.value >= 0 && flagged ==> channel.Some? && channel.value >= 1
  {
    maxPanels.Some? && channel.GetOr(0) > maxPanels.value
  }

  /** What the handler reports beyond its unconditional diagnostic lines. */
  datatype ServerLog = InvalidChannel(channel: Option<byte>, maxPanels: int) | SpidevsPresent

  /** The handler for one datagram, given the `spidevs` and `max_panels` it
      captured at setup. It returns its log lines and nothing else: the
      context is not among its inputs, so it cannot change it. */
  function HandleMessage(msg: seq<byte>, spidevs: Option<seq<Device>>, maxPanels: Option<int>): (logs: seq<ServerLog>)
    ensures |logs| <= 2
    ensures forall l :: l in logs && l.InvalidChannel? ==>
              maxPanels.Some? && l == InvalidChannel(DecodeHeader(msg).channel, maxPanels.value)
  {
    var header := DecodeHeader(msg);
    (if ChannelFlagged(header.channel, maxPanels) then [InvalidChannel(header.channel, maxPanels.value)] else [])
    + (if spidevs.Some? then [SpidevsPresent] else [])
  }

  /** The channel check is strict and only logs: a datagram is flagged exactly
      when its first byte exceeds the panel count (a channel equal to it is
      accepted), and for a non-negative count an empty datagram is never
      flagged. */
  lemma ChannelCheck(msg: seq<byte>, spidevs: Option<seq<Device>>, maxPanels: int)
    requires maxPanels >= 0
    ensures (InvalidChannel(DecodeHeader(msg).channel, maxPanels) in HandleMessage(msg, spidevs, Some(maxPanels)))
        <==> |msg| >= 1 && msg[0] > maxPanels
    ensures (SpidevsPresent in HandleMessage(msg, spidevs, Some(maxPanels))) <==> spidevs.Some?
  {
  }

  /** With the default of four panels, channels 0 to 4 pass and 5 is flagged. */
  lemma DefaultChannelBound(config: Fields, now: int, msg: seq<byte>)
    requires config.maxPanels.None?
    requires |msg| >= 1
    ensures var c := OpcContext(config, now);
      (InvalidChannel(Some(msg[0]), 4) in HandleMessage(msg, c.spidevs, c.maxPanels)) <==> msg[0] >= 5
  {
  }
}
