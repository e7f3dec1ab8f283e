/** The drivers and the render step: `ledDriver` and `opcClientDriver` send
    each channel's colours out, and `driverFactory` captures one context and
    returns a step that runs the middleware left to right and then the driver
    (lodash `flow`, a left-to-right fold). */
module DriverFactory {
  import opened Prelude
  import opened Context
  import opened Util
  import opened Middleware

  /** The stage functions a render step can be built from. */
  datatype Stage =
    | SingleRainbow
    | ColoursToAllChannels
    | ColoursToChannels(targets: seq<nat>)
    | ColourRateLogger
    | LedDriver
    | OpcClientDriver

  // ---------------------------------------------------------------------
  // Traces
  // ---------------------------------------------------------------------

  /** The channels of the SPI transfers in a trace, in order. */
  function TransferredChannels(t: seq<Effect>): seq<nat> {
    if t == [] then []
    else
      var last := t[|t| - 1];
      TransferredChannels(t[..|t| - 1]) + (if last.Transfer? then [last.channel] else [])
  }

  /** The number of console error lines in a trace. */
  function ErrorCount(t: seq<Effect>): nat {
    if t == [] then 0
    else ErrorCount(t[..|t| - 1]) + (if t[|t| - 1].ErrorLog? then 1 else 0)
  }

  lemma {:induction false} TraceAppend(a: seq<Effect>, b: seq<Effect>)
    ensures TransferredChannels(a + b) == TransferredChannels(a) + TransferredChannels(b)
    ensures ErrorCount(a + b) == ErrorCount(a) + ErrorCount(b)
    decreases |b|
  {
    if b != [] {
      var b' := b[..|b| - 1];
      assert (a + b)[..|a + b| - 1] == a + b';
      TraceAppend(a, b');
    } else {
      assert a + b == a;
    }
  }

  // ---------------------------------------------------------------------
  // ledDriver
  // ---------------------------------------------------------------------

  /** What one iteration of ledDriver's loop does for `channel`: one SPI
      transfer of the encoded colours with the buffer's own length, then the
      completion callback, consoleErrorHandler, on the reported error. */
  function LedChannel(channel: nat, table: map<nat, seq<Rgb>>, channels: map<nat, Device>,
                      brightness: Option<real>, env: Env): (t: seq<Effect>)
    requires channel in table && channel in channels
    ensures 1 <= |t| <= 2 && t[0].Transfer? && t[0].channel == channel
  {
    var buf := env.sk9822(table[channel], brightness);
    var device := channels[channel];
    [Transfer(channel, device, buf, |buf|)] + ConsoleErrorHandler(env.spi(device, buf, |buf|).err)
  }

  /** ledDriver's effects for the keys `ks`, in order. */
  function LedTrace(ks: seq<nat>, table: map<nat, seq<Rgb>>, channels: map<nat, Device>,
                    brightness: Option<real>, env: Env): (t: seq<Effect>)
    requires forall k :: k in ks ==> k in table && k in channels
  {
    if ks == [] then []
    else LedTrace(ks[..|ks| - 1], table, channels, brightness, env)
         + LedChannel(ks[|ks| - 1], table, channels, brightness, env)
  }

  /** The number of keys among `ks` whose transfer completes with an error. */
  function FailingTransfers(ks: seq<nat>, table: map<nat, seq<Rgb>>, channels: map<nat, Device>,
                            brightness: Option<real>, env: Env): nat
    requires forall k :: k in ks ==> k in table && k in channels
  {
    if ks == [] then 0
    else
      var k := ks[|ks| - 1];
      var buf := env.sk9822(table[k], brightness);
      FailingTransfers(ks[..|ks| - 1], table, channels, brightness, env)
      + (if Truthy(env.spi(channels[k], buf, |buf|).err) then 1 else 0)
  }

  /** One channel's effects: a single transfer, to that channel, and an
      error line exactly when the completion reports an error. */
  lemma LedChannelFacts(k: nat, table: map<nat, seq<Rgb>>, channels: map<nat, Device>,
                        brightness: Option<real>, env: Env)
    requires k in table && k in channels
    ensures var t := LedChannel(k, table, channels, brightness, env);
      var buf := env.sk9822(table[k], brightness);
      && TransferredChannels(t) == [k]
      && ErrorCount(t) == (if Truthy(env.spi(channels[k], buf, |buf|).err) then 1 else 0)
  {
    var buf := env.sk9822(table[k], brightness);
    var transfer := [Transfer(k, channels[k], buf, |buf|)];
    var logged := ConsoleErrorHandler(env.spi(channels[k], buf, |buf|).err);
    TraceAppend(transfer, logged);
    assert transfer[..0] == [];
    if logged != [] {
      assert logged[..0] == [];
    }
  }

  /** The one transfer of a channel goes to that channel's device, with its
      encoded colours and the buffer's length. */
  lemma LedChannelTransfer(k: nat, table: map<nat, seq<Rgb>>, channels: map<nat, Device>,
                           brightness: Option<real>, env: Env)
    requires k in table && k in channels
    ensures var buf := env.sk9822(table[k], brightness);
      forall e :: e in LedChannel(k, table, channels, brightness, env) && e.Transfer? ==>
        e == Transfer(k, channels[k], buf, |buf|)
  {
  }

  /** ledDriver transfers to exactly the keys `ks`, once each, in order. */
  lemma {:induction false} LedTraceChannels(ks: seq<nat>, table: map<nat, seq<Rgb>>, channels: map<nat, Device>,
                                            brightness: Option<real>, env: Env)
    requires forall k :: k in ks ==> k in table && k in channels
    ensures TransferredChannels(LedTrace(ks, table, channels, brightness, env)) == ks
  {
    if ks != [] {
      var init := ks[..|ks| - 1];
      var k := ks[|ks| - 1];
      LedTraceUnfold(ks, table, channels, brightness, env);
      LedTraceChannels(init, table, channels, brightness, env);
      LedChannelFacts(k, table, channels, brightness, env);
      ChannelsSnoc(LedTrace(init, table, channels, brightness, env), LedChannel(k, table, channels, brightness, env), init, k);
      SnocLast(ks);
    }
  }

  lemma LedTraceUnfold(ks: seq<nat>, table: map<nat, seq<Rgb>>, channels: map<nat, Device>,
                       brightness: Option<real>, env: Env)
    requires ks != []
    requires forall k :: k in ks ==> k in table && k in channels
    ensures forall k :: k in ks[..|ks| - 1] ==> k in table && k in channels
    ensures LedTrace(ks, table, channels, brightness, env)
         == LedTrace(ks[..|ks| - 1], table, channels, brightness, env) + LedChannel(ks[|ks| - 1], table, channels, brightness, env)
  {
  }

  lemma SnocLast(ks: seq<nat>)
    requires ks != []
    ensures ks == ks[..|ks| - 1] + [ks[|ks| - 1]]
  {
  }

  lemma ChannelsSnoc(front: seq<Effect>, back: seq<Effect>, init: seq<nat>, k: nat)
    requires TransferredChannels(front) == init && TransferredChannels(back) == [k]
    ensures TransferredChannels(front + back) == init + [k]
  {
    TraceAppend(front, back);
  }

  /** There is one error line per transfer whose completion reports an error,
      and none for a transfer that completes cleanly. */
  lemma {:induction false} LedTraceErrors(ks: seq<nat>, table: map<nat, seq<Rgb>>, channels: map<nat, Device>,
                                          brightness: Option<real>, env: Env)
    requires forall k :: k in ks ==> k in table && k in channels
    ensures ErrorCount(LedTrace(ks, table, channels, brightness, env)) == FailingTransfers(ks, table, channels, brightness, env)
  {
    if ks != [] {
      var init := ks[..|ks| - 1];
      var k := ks[|ks| - 1];
      LedTraceErrors(init, table, channels, brightness, env);
      LedChannelFacts(k, table, channels, brightness, env);
      TraceAppend(LedTrace(init, table, channels, brightness, env), LedChannel(k, table, channels, brightness, env));
    }
  }

  /** Every transfer carries the encoded colours of its channel to that
      channel's device, with the length of the buffer it passes. */
  lemma {:induction false} LedTraceTransfers(ks: seq<nat>, table: map<nat, seq<Rgb>>, channels: map<nat, Device>,
                                             brightness: Option<real>, env: Env)
    requires forall k :: k in ks ==> k in table && k in channels
    ensures forall e :: e in LedTrace(ks, table, channels, brightness, env) && e.Transfer? ==>
      && e.channel in ks
      && e.device == channels[e.channel]
      && e.data == env.sk9822(table[e.channel], brightness)
      && e.length == |e.data|
  {
    if ks != [] {
      var init := ks[..|ks| - 1];
      var k := ks[|ks| - 1];
      LedTraceTransfers(init, table, channels, brightness, env);
      LedChannelTransfer(k, table, channels, brightness, env);
      forall e | e in LedTrace(ks, table, channels, brightness, env) && e.Transfer?
        ensures e.channel in ks && e.device == channels[e.channel]
        ensures e.data == env.sk9822(table[e.channel], brightness) && e.length == |e.data|
      {
        if e in LedTrace(init, table, channels, brightness, env) {
          assert e.channel in init;
        } else {
          assert e in LedChannel(k, table, channels, brightness, env);
        }
      }
    }
  }

  /** How many of the ordered keys ledDriver gets through before it meets a
      key without a device (where `channels[channel].spi` throws). */
  function Reached(ks: seq<nat>, channels: map<nat, Device>): (n: nat)
    ensures n <= |ks|
    ensures forall i :: 0 <= i < n ==> ks[i] in channels
    ensures n < |ks| ==> ks[n] !in channels
  {
    if ks == [] || ks[0] !in channels then 0 else 1 + Reached(ks[1..], channels)
  }

  /** ledDriver on the context value. It returns the context it was given;
      an undefined `channelColours` throws before any transfer, and a key
      without a device throws after the transfers of the keys before it. */
  function LedDriverSpec(c: Fields, env: Env): (o: Outcome)
    ensures o.ctx == c
  {
    match c.channelColours
    case None => Outcome(c, [], true)
    case Some(table) =>
      var keys := OrderedKeys(table.Keys);
      var n := Reached(keys, c.channels);
      assert forall k :: k in keys[..n] ==> k in table && k in c.channels;
      Outcome(c, LedTrace(keys[..n], table, c.channels, c.brightness, env), n < |keys|)
  }

  /** With `channelColours` undefined, `Object.keys` throws before any transfer. */
  lemma LedDriverNoTable(c: Fields, env: Env)
    requires c.channelColours.None?
    ensures LedDriverSpec(c, env).threw && LedDriverSpec(c, env).trace == []
  {
  }

  /** ledDriver throws exactly when one of the channels of `channelColours`
      has no device. Otherwise it transfers to every channel once, in
      ascending order; when it throws, the channels below the first one
      without a device have already been transferred. */
  lemma LedDriverOutcome(c: Fields, env: Env, table: map<nat, seq<Rgb>>)
    requires c.channelColours == Some(table)
    ensures LedDriverSpec(c, env).threw <==> !(table.Keys <= c.channels.Keys)
    ensures !LedDriverSpec(c, env).threw ==>
              TransferredChannels(LedDriverSpec(c, env).trace) == OrderedKeys(table.Keys)
    ensures LedDriverSpec(c, env).threw ==>
              var keys := OrderedKeys(table.Keys);
              var n := |TransferredChannels(LedDriverSpec(c, env).trace)|;
              n < |keys| && keys[n] !in c.channels && TransferredChannels(LedDriverSpec(c, env).trace) == keys[..n]
  {
    var keys := OrderedKeys(table.Keys);
    var n := Reached(keys, c.channels);
    var o := LedDriverSpec(c, env);
    assert forall k :: k in keys[..n] ==> k in table && k in c.channels;
    assert o.trace == LedTrace(keys[..n], table, c.channels, c.brightness, env);
    assert o.threw == (n < |keys|);
    LedTraceChannels(keys[..n], table, c.channels, c.brightness, env);
    if n < |keys| {
      assert keys[n] in table.Keys && keys[n] !in c.channels.Keys;
    } else {
      TakeAll(keys);
      forall k | k in table.Keys
        ensures k in c.channels.Keys
      {
        var j :| 0 <= j < |keys| && keys[j] == k;
      }
    }
  }

  /** When every completion is clean (a loopback echo, say), ledDriver logs
      nothing; when every completion reports an error, it logs one line per
      channel. */
  lemma LedDriverErrors(c: Fields, env: Env, table: map<nat, seq<Rgb>>)
    requires c.channelColours == Some(table) && table.Keys <= c.channels.Keys
    ensures AllClean(env) ==> ErrorCount(LedDriverSpec(c, env).trace) == 0
    ensures AllFail(env) ==> ErrorCount(LedDriverSpec(c, env).trace) == |table.Keys|
  {
    var keys := OrderedKeys(table.Keys);
    assert forall i :: 0 <= i < |keys| ==> keys[i] in table.Keys;
    ReachedIs(keys, c.channels, |keys|);
    TakeAll(keys);
    LedTraceErrors(keys, table, c.channels, c.brightness, env);
    FailingCount(keys, table, c.channels, c.brightness, env);
  }

  /** Every transfer completes without an error. */
  ghost predicate AllClean(env: Env) {
    forall d, b, n :: !Truthy(env.spi(d, b, n).err)
  }

  /** Every transfer completes with an error. */
  ghost predicate AllFail(env: Env) {
    forall d, b, n :: Truthy(env.spi(d, b, n).err)
  }

  lemma {:induction false} FailingCount(ks: seq<nat>, table: map<nat, seq<Rgb>>, channels: map<nat, Device>,
                                        brightness: Option<real>, env: Env)
    requires forall k :: k in ks ==> k in table && k in channels
    ensures AllClean(env) ==> FailingTransfers(ks, table, channels, brightness, env) == 0
    ensures AllFail(env) ==> FailingTransfers(ks, table, channels, brightness, env) == |ks|
  {
    if ks != [] {
      FailingCount(ks[..|ks| - 1], table, channels, brightness, env);
    }
  }

  /** ledDriver on the context object: the loop over `Object.keys(channelColours)`
      issues one transfer per channel; the context itself is not written. */
  method LedDriverStage(ctx: RenderContext, env: Env) returns (trace: seq<Effect>, threw: bool)
    ensures Outcome(ctx.View(), trace, threw) == LedDriverSpec(ctx.View(), env)
  {
    if ctx.channelColours.None? {
      return [], true;
    }
    var table := ctx.channelColours.value;
    var keys := OrderedKeys(table.Keys);
    var reached;
    trace, reached := TransferEach(keys, table, ctx.channels, ctx.brightness, env);
    threw := reached < |keys|;
  }

  /** The `forEach` of ledDriver over the ordered keys: it stops at the first
      key without a device, where `channels[channel].spi` throws. */
  method TransferEach(keys: seq<nat>, table: map<nat, seq<Rgb>>, channels: map<nat, Device>,
                      brightness: Option<real>, env: Env) returns (trace: seq<Effect>, i: nat)
    requires forall k :: k in keys ==> k in table
    ensures i == Reached(keys, channels)
    ensures forall k :: k in keys[..i] ==> k in table && k in channels
    ensures trace == LedTrace(keys[..i], table, channels, brightness, env)
  {
    i := 0;
    trace := [];
    while i < |keys|
      invariant i <= |keys|
      invariant forall j :: 0 <= j < i ==> keys[j] in channels
      invariant trace == LedTrace(keys[..i], table, channels, brightness, env)
    {
      var channel := keys[i];
      if channel !in channels {
        break;
      }
      var buf := env.sk9822(table[channel], brightness);
      var device := channels[channel];
      var completion := env.spi(device, buf, |buf|);
      var effects := [Transfer(channel, device, buf, |buf|)] + ConsoleErrorHandler(completion.err);
      assert effects == LedChannel(channel, table, channels, brightness, env);
      trace := trace + effects;
      LedTraceSnoc(keys[..i], channel, table, channels, brightness, env);
      TakeSnoc(keys, i);
      i := i + 1;
    }
    ReachedIs(keys, channels, i);
  }

  lemma LedTraceSnoc(ks: seq<nat>, k: nat, table: map<nat, seq<Rgb>>, channels: map<nat, Device>,
                     brightness: Option<real>, env: Env)
    requires forall j :: j in ks ==> j in table && j in channels
    requires k in table && k in channels
    ensures LedTrace(ks + [k], table, channels, brightness, env)
         == LedTrace(ks, table, channels, brightness, env) + LedChannel(k, table, channels, brightness, env)
  {
    assert (ks + [k])[..|ks|] == ks;
  }

  /** The stopping point of the loop is the first key without a device. */
  lemma ReachedIs(ks: seq<nat>, channels: map<nat, Device>, i: nat)
    requires i <= |ks|
    requires forall j :: 0 <= j < i ==> ks[j] in channels
    requires i < |ks| ==> ks[i] !in channels
    ensures Reached(ks, channels) == i
  {
  }

  // ---------------------------------------------------------------------
  // opcClientDriver
  // ---------------------------------------------------------------------

  /** One write of the composed OPC message per key of `ks`, in order. */
  function OpcWrites(ks: seq<nat>, table: map<nat, seq<Rgb>>, env: Env): (t: seq<Effect>)
    requires forall k :: k in ks ==> k in table
    ensures |t| == |ks|
    ensures forall i :: 0 <= i < |ks| ==> t[i] == ClientWrite(env.composeOpc(ks[i], table[ks[i]]))
  {
    seq(|ks|, i requires 0 <= i < |ks| => ClientWrite(env.composeOpc(ks[i], table[ks[i]])))
  }

  /** opcClientDriver on the context value: it returns the context it was
      given; an undefined `channelColours` throws before any write. */
  function OpcClientDriverSpec(c: Fields, env: Env): (o: Outcome)
    ensures o.ctx == c
    ensures o.threw <==> c.channelColours.None?
    ensures c.channelColours.None? ==> o.trace == []
    ensures c.channelColours.Some? ==> |o.trace| == |c.channelColours.value.Keys|
  {
    match c.channelColours
    case None => Outcome(c, [], true)
    case Some(table) => Outcome(c, OpcWrites(OrderedKeys(table.Keys), table, env), false)
  }

  /** opcClientDriver on the context object. */
  method OpcClientDriverStage(ctx: RenderContext, env: Env) returns (trace: seq<Effect>, threw: bool)
    ensures Outcome(ctx.View(), trace, threw) == OpcClientDriverSpec(ctx.View(), env)
  {
    if ctx.channelColours.None? {
      return [], true;
    }
    var table := ctx.channelColours.value;
    var keys := OrderedKeys(table.Keys);
    var i := 0;
    trace, threw := [], false;
    while i < |keys|
      invariant i <= |keys|
      invariant trace == OpcWrites(keys[..i], table, env)
    {
      var channel := keys[i];
      trace := trace + [ClientWrite(env.composeOpc(channel, table[channel]))];
      i := i + 1;
    }
    TakeAll(keys);
  }

  /** opcClientDriver writes one message per channel, in ascending channel
      order, each composed from that channel and its colours. */
  lemma OpcClientDriverWrites(c: Fields, env: Env, table: map<nat, seq<Rgb>>)
    requires c.channelColours == Some(table)
    ensures var o := OpcClientDriverSpec(c, env);
      var keys := OrderedKeys(table.Keys);
      && !o.threw && |o.trace| == |keys|
      && forall i :: 0 <= i < |keys| ==> o.trace[i] == ClientWrite(env.composeOpc(keys[i], table[keys[i]]))
  {
  }

  // ---------------------------------------------------------------------
  // Composition: lodash flow
  // ---------------------------------------------------------------------

  /** One stage on the context value. */
  function Apply(stage: Stage, c: Fields, env: Env): (o: Outcome)
    requires c.start <= env.now
    ensures o.ctx.start == c.start
  {
    match stage
    case SingleRainbow => Outcome(SingleRainbowSpec(c, env.hsvToRgb), [], false)
    case ColoursToAllChannels => ColoursToAllChannelsSpec(c)
    case ColoursToChannels(targets) => Outcome(ColoursToChannelsSpec(targets, c), [], false)
    case ColourRateLogger => RateLogger(c, env.now)
    case LedDriver => LedDriverSpec(c, env)
    case OpcClientDriver => OpcClientDriverSpec(c, env)
  }

  /** Runs one more stage after `o`, appending its effects. */
  function Then(stage: Stage, o: Outcome, env: Env): Outcome
    requires o.ctx.start <= env.now
  {
    var s := Apply(stage, o.ctx, env);
    Outcome(s.ctx, o.trace + s.trace, s.threw)
  }

  /** `flow(...stages)` applied to the context: each stage's output is the next
      stage's input, left to right; a stage that throws ends the run. */
  function Flow(stages: seq<Stage>, o: Outcome, env: Env): (r: Outcome)
    requires o.ctx.start <= env.now
    ensures r.ctx.start == o.ctx.start
    ensures o.trace <= r.trace
    ensures o.threw ==> r == o
    decreases |stages|
  {
    if stages == [] || o.threw then o
    else Flow(stages[1..], Then(stages[0], o, env), env)
  }

  /** Flowing through `a + b` is flowing through `a`, then through `b`. */
  lemma {:induction false} FlowAppend(a: seq<Stage>, b: seq<Stage>, o: Outcome, env: Env)
    requires o.ctx.start <= env.now
    ensures Flow(a + b, o, env) == Flow(b, Flow(a, o, env), env)
    decreases |a|
  {
    if a == [] {
      assert a + b == b;
    } else if !o.threw {
      assert (a + b)[1..] == a[1..] + b;
      FlowAppend(a[1..], b, Then(a[0], o, env), env);
    }
  }

  /** The stage appended last runs last, exactly once, on the output of the
      stages before it, unless one of them threw. */
  lemma FlowLast(a: seq<Stage>, last: Stage, o: Outcome, env: Env)
    requires o.ctx.start <= env.now
    ensures var before := Flow(a, o, env);
      Flow(a + [last], o, env) == if before.threw then before else Then(last, before, env)
  {
    FlowAppend(a, [last], o, env);
  }

  /** Order matters: singleRainbow then coloursToAllChannels fans out the new
      rainbow colours, while the reverse order fans out the colours the context
      held before. */
  lemma FlowOrderMatters(c: Fields, env: Env)
    requires c.start <= env.now
    requires c.spidevs.Some?
    ensures Flow([SingleRainbow, ColoursToAllChannels], Outcome(c, [], false), env).ctx.channelColours
         == Some(FanOut(|c.spidevs.value|, SingleRainbowSpec(c, env.hsvToRgb).colours))
    ensures Flow([ColoursToAllChannels, SingleRainbow], Outcome(c, [], false), env).ctx.channelColours
         == Some(FanOut(|c.spidevs.value|, c.colours))
  {
    var o := Outcome(c, [], false);
    assert [SingleRainbow, ColoursToAllChannels][1..] == [ColoursToAllChannels];
    assert [ColoursToAllChannels, SingleRainbow][1..] == [SingleRainbow];
    assert Flow([SingleRainbow, ColoursToAllChannels], o, env)
        == Flow([ColoursToAllChannels], Then(SingleRainbow, o, env), env);
    assert Flow([ColoursToAllChannels, SingleRainbow], o, env)
        == Flow([SingleRainbow], Then(ColoursToAllChannels, o, env), env);
  }

  /** A two-stage flow from a fresh run: the second stage runs on the first
      one's output unless the first one threw. */
  lemma FlowPair(first: Stage, second: Stage, c: Fields, env: Env)
    requires c.start <= env.now
    ensures var o1 := Then(first, Outcome(c, [], false), env);
      Flow([first, second], Outcome(c, [], false), env) == if o1.threw then o1 else Then(second, o1, env)
  {
    var o := Outcome(c, [], false);
    var o1 := Then(first, o, env);
    assert [first, second][1..] == [second];
    assert Flow([first, second], o, env) == Flow([second], o1, env);
    if !o1.threw {
      assert [second][1..] == [];
      assert Flow([second], o1, env) == Flow([], Then(second, o1, env), env);
    }
  }

  /** A step that targets some channels and then drives the LEDs transfers to
      the distinct targets, once each, in ascending order, whatever order and
      repetitions the target list has, provided every target has a device. */
  lemma TargetedTransfers(targets: seq<nat>, c: Fields, env: Env)
    requires c.start <= env.now
    requires forall k :: k in targets ==> k in c.channels
    ensures var o := Flow([ColoursToChannels(targets), LedDriver], Outcome(c, [], false), env);
      !o.threw && TransferredChannels(o.trace) == OrderedKeys(set k | k in targets)
  {
    var o1 := Then(ColoursToChannels(targets), Outcome(c, [], false), env);
    var table := Targeted(targets, c.colours);
    assert o1 == Outcome(ColoursToChannelsSpec(targets, c), [], false);
    assert table.Keys == set k | k in targets;
    LedDriverOutcome(o1.ctx, env, table);
    FlowPair(ColoursToChannels(targets), LedDriver, c, env);
    assert [] + LedDriverSpec(o1.ctx, env).trace == LedDriverSpec(o1.ctx, env).trace;
  }

  /** The two targets 3 and 1 (in either order) get one transfer each, channel
      1 first, and no other channel is written. */
  lemma TargetedTransfersExample(c: Fields, env: Env)
    requires c.start <= env.now
    requires 1 in c.channels && 3 in c.channels
    ensures var o := Flow([ColoursToChannels([3, 1]), LedDriver], Outcome(c, [], false), env);
      !o.threw && TransferredChannels(o.trace) == [1, 3]
  {
    var targets := [3, 1];
    TargetedTransfers(targets, c, env);
    var keys := set k | k in targets;
    var ordered := OrderedKeys(keys);
    assert forall x :: x in ordered <==> x in [1, 3];
    IncreasingUnique(ordered, [1, 3]);
  }

  /** A step built on coloursToChannels and opcClientDriver writes one
      message per distinct target. */
  lemma TargetedWrites(targets: seq<nat>, c: Fields, env: Env)
    requires c.start <= env.now
    ensures var o := Flow([ColoursToChannels(targets), OpcClientDriver], Outcome(c, [], false), env);
      !o.threw && |o.trace| == |set k | k in targets|
  {
    var o1 := Then(ColoursToChannels(targets), Outcome(c, [], false), env);
    assert o1.ctx.channelColours.value.Keys == set k | k in targets;
    FlowPair(ColoursToChannels(targets), OpcClientDriver, c, env);
  }

  /** The context persists between steps: a second rainbow step starts from
      the hue the first one stored. */
  lemma RainbowAcrossSteps(c: Fields, env: Env)
    requires c.start <= env.now && c.hsv.None? && c.spidevs.Some?
    ensures var stages := [SingleRainbow, ColoursToAllChannels, OpcClientDriver];
      var first := Flow(stages, Outcome(c, [], false), env);
      var second := Flow(stages, Outcome(first.ctx, [], false), env);
      && !first.threw && first.ctx.hsv == Some(Hsv(1, 100, 10))
      && !second.threw && second.ctx.hsv == Some(Hsv(2, 100, 10))
  {
    var stages := [SingleRainbow, ColoursToAllChannels, OpcClientDriver];
    RainbowStep(c, env);
    var first := Flow(stages, Outcome(c, [], false), env);
    RainbowStep(first.ctx, env);
  }

  /** One rainbow step advances the hue and does not throw. */
  lemma RainbowStep(c: Fields, env: Env)
    requires c.start <= env.now && c.spidevs.Some?
    requires c.hsv.Some? ==> c.hsv.value.h >= -1
    ensures var o := Flow([SingleRainbow, ColoursToAllChannels, OpcClientDriver], Outcome(c, [], false), env);
      && !o.threw && o.ctx.hsv == SingleRainbowSpec(c, env.hsvToRgb).hsv
      && o.ctx.spidevs == c.spidevs && o.ctx.start == c.start
  {
    var stages := [SingleRainbow, ColoursToAllChannels, OpcClientDriver];
    assert stages[1..] == [ColoursToAllChannels, OpcClientDriver];
    assert stages[1..][1..] == [OpcClientDriver];
    assert [OpcClientDriver][1..] == [];
    var o := Outcome(c, [], false);
    var o1 := Then(SingleRainbow, o, env);
    var o2 := Then(ColoursToAllChannels, o1, env);
    var o3 := Then(OpcClientDriver, o2, env);
    assert o2.ctx.channelColours.Some?;
    assert Flow(stages, o, env) == o3;
  }

  // ---------------------------------------------------------------------
  // The render step and driverFactory
  // ---------------------------------------------------------------------

  /** One stage on the context object. */
  method RunStage(stage: Stage, ctx: RenderContext, env: Env) returns (trace: seq<Effect>, threw: bool)
    requires ctx.start <= env.now
    modifies ctx
    ensures Outcome(ctx.View(), trace, threw) == Apply(stage, old(ctx.View()), env)
  {
    match stage
    case SingleRainbow =>
      Middleware.SingleRainbow(ctx, env.hsvToRgb);
      trace, threw := [], false;
    case ColoursToAllChannels =>
      threw := Middleware.ColoursToAllChannels(ctx);
      trace := [];
    case ColoursToChannels(targets) =>
      Middleware.ColoursToChannels(targets, ctx);
      trace, threw := [], false;
    case ColourRateLogger =>
      trace, threw := Util.ColourRateLogger(ctx, env.now);
    case LedDriver =>
      trace, threw := LedDriverStage(ctx, env);
    case OpcClientDriver =>
      trace, threw := OpcClientDriverStage(ctx, env);
  }

  /** The closure a factory returns: it holds the one context it built and the
      stages, and every call runs the stages over that same context. */
  class RenderLoop {
    const context: RenderContext
    const stages: seq<Stage>

    constructor (config: Fields, stages: seq<Stage>)
      ensures fresh(context)
      ensures context.View() == config
      ensures this.stages == stages
    {
      context := new RenderContext(config);
      this.stages := stages;
    }

    /** One call of the step: the context after it is what flowing the stages
        over the context before it gives, so a call sees every earlier call's
        writes. */
    method Step(env: Env) returns (trace: seq<Effect>, threw: bool)
      requires context.start <= env.now
      modifies context
      ensures Outcome(context.View(), trace, threw) == Flow(stages, Outcome(old(context.View()), [], false), env)
    {
      ghost var initial := Outcome(context.View(), [], false);
      var i := 0;
      trace, threw := [], false;
      while i < |stages| && !threw
        invariant i <= |stages|
        invariant context.start == initial.ctx.start
        invariant Outcome(context.View(), trace, threw) == Flow(stages[..i], initial, env)
      {
        var t, th := RunStage(stages[i], context, env);
        FlowStep(stages, i, initial, env);
        trace, threw := trace + t, th;
        i := i + 1;
      }
      FlowDone(stages, i, initial, env);
    }
  }

  /** One more stage of the loop extends the prefix that has been flowed. */
  lemma FlowStep(stages: seq<Stage>, i: nat, o: Outcome, env: Env)
    requires i < |stages|
    requires o.ctx.start <= env.now
    requires !Flow(stages[..i], o, env).threw
    ensures Flow(stages[..i + 1], o, env) == Then(stages[i], Flow(stages[..i], o, env), env)
  {
    FlowLast(stages[..i], stages[i], o, env);
    TakeSnoc(stages, i);
  }

  /** Once every stage has run, or one has thrown, the rest change nothing. */
  lemma FlowDone(stages: seq<Stage>, i: nat, o: Outcome, env: Env)
    requires i <= |stages|
    requires o.ctx.start <= env.now
    requires i < |stages| ==> Flow(stages[..i], o, env).threw
    ensures Flow(stages, o, env) == Flow(stages[..i], o, env)
  {
    if i == |stages| {
      TakeAll(stages);
    } else {
      FlowAppend(stages[..i], stages[i..], o, env);
      TakeDrop(stages, i);
    }
  }

  /** driverFactory(config, middleware, driver): one context, a shallow copy of
      the configuration, and a step running the middleware and then the driver
      (ledDriver when none is given). */
  method Factory(config: Fields, middleware: seq<Stage>, driver: Option<Stage>) returns (loop: RenderLoop)
    ensures fresh(loop.context)
    ensures loop.context.View() == config
    ensures loop.stages == middleware + [driver.GetOr(LedDriver)]
  {
    loop := new RenderLoop(config, middleware + [driver.GetOr(LedDriver)]);
  }

  /** Two calls of a rainbow step built by the factory: the second call sees
      the hue the first one stored in the shared context. */
  method RainbowTwice(config: Fields, env: Env) returns (first: Option<Hsv>, second: Option<Hsv>)
    requires config.start <= env.now && config.hsv.None? && config.spidevs.Some?
    ensures first == Some(Hsv(1, 100, 10)) && second == Some(Hsv(2, 100, 10))
  {
    var loop := Factory(config, [SingleRainbow, ColoursToAllChannels], Some(OpcClientDriver));
    assert loop.stages == [SingleRainbow, ColoursToAllChannels, OpcClientDriver];
    RainbowAcrossSteps(config, env);
    var _, _ := loop.Step(env);
    first := loop.context.hsv;
    var _, _ := loop.Step(env);
    second := loop.context.hsv;
  }
}
