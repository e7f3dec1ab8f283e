/** The middleware stages: each takes the shared context, assigns some of its
    fields in place, and hands the same context on. */
module Middleware {
  import opened Prelude
  import opened Context

  /** The colour singleRainbow starts from when the context has no `hsv`. */
  const DefaultHsv := Hsv(360, 100, 10)

  /** The strip length singleRainbow assumes when the context has no `numLeds`. */
  const DefaultNumLeds: nat := 360

  // ---------------------------------------------------------------------
  // singleRainbow
  // ---------------------------------------------------------------------

  /** The hue after one singleRainbow step: `(h + 1) % 360` in JavaScript. */
  function NextHue(h: int): (r: int)
    ensures -1 <= h ==> 0 <= r < 360 && r == (h + 1) % 360
  {
    JsRem(h + 1, 360)
  }

  /** singleRainbow on the context value. */
  function SingleRainbowSpec(c: Fields, hsvToRgb: Hsv -> Rgb): (r: Fields)
    ensures r.hsv.Some? && |r.colours| == c.numLeds.GetOr(DefaultNumLeds)
    ensures forall i :: 0 <= i < |r.colours| ==> r.colours[i] == hsvToRgb(r.hsv.value)
  {
    var hsv := c.hsv.GetOr(DefaultHsv);
    var advanced := hsv.(h := NextHue(hsv.h));
    var rgb := hsvToRgb(advanced);
    c.(hsv := Some(advanced), colours := seq(c.numLeds.GetOr(DefaultNumLeds), _ => rgb))
  }

  /** singleRainbow advances the stored hue by one modulo 360, keeps saturation
      and value, fills `colours` with `numLeds` (default 360) copies of the
      converted colour, and changes no other field. */
  lemma SingleRainbowEffect(c: Fields, hsvToRgb: Hsv -> Rgb)
    requires c.hsv.Some? ==> c.hsv.value.h >= -1
    ensures var r := SingleRainbowSpec(c, hsvToRgb);
      && r.hsv.Some?
      && 0 <= r.hsv.value.h < 360
      && r.hsv.value.h == (c.hsv.GetOr(DefaultHsv).h + 1) % 360
      && r.hsv.value.s == c.hsv.GetOr(DefaultHsv).s
      && r.hsv.value.v == c.hsv.GetOr(DefaultHsv).v
      && |r.colours| == c.numLeds.GetOr(DefaultNumLeds)
      && (forall i :: 0 <= i < |r.colours| ==> r.colours[i] == hsvToRgb(r.hsv.value))
      && r.(hsv := c.hsv, colours := c.colours) == c
  {
  }

  /** With no prior `hsv`, the default hue 360 makes the first step's hue 1. */
  lemma SingleRainbowFirstHue(c: Fields, hsvToRgb: Hsv -> Rgb)
    requires c.hsv.None?
    ensures SingleRainbowSpec(c, hsvToRgb).hsv == Some(Hsv(1, 100, 10))
  {
  }

  /** `k` successive singleRainbow steps on the same context. */
  function Rainbows(c: Fields, hsvToRgb: Hsv -> Rgb, k: nat): Fields
    decreases k
  {
    if k == 0 then c else SingleRainbowSpec(Rainbows(c, hsvToRgb, k - 1), hsvToRgb)
  }

  /** The hue is stored back in the context, so it advances across steps:
      starting from no `hsv`, after `k >= 1` steps the hue is `k mod 360`. */
  lemma {:induction false} RainbowsHue(c: Fields, hsvToRgb: Hsv -> Rgb, k: nat)
    requires c.hsv.None?
    requires k >= 1
    ensures Rainbows(c, hsvToRgb, k).hsv == Some(Hsv(k % 360, 100, 10))
  {
    if k > 1 {
      RainbowsHue(c, hsvToRgb, k - 1);
      HueStep(k);
    }
  }

  lemma HueStep(k: nat)
    requires k >= 1
    ensures ((k - 1) % 360 + 1) % 360 == k % 360
  {
  }

  /** singleRainbow on the context object. */
  method SingleRainbow(ctx: RenderContext, hsvToRgb: Hsv -> Rgb)
    modifies ctx
    ensures ctx.View() == SingleRainbowSpec(old(ctx.View()), hsvToRgb)
  {
    var hsv := if ctx.hsv.Some? then ctx.hsv.value else DefaultHsv;
    var numLeds := if ctx.numLeds.Some? then ctx.numLeds.value else DefaultNumLeds;
    var h := hsv.h;
    hsv := hsv.(h := JsRem(h + 1, 360));
    ctx.hsv := Some(hsv);
    var rgb := hsvToRgb(hsv);
    ctx.colours := seq(numLeds, _ => rgb);
  }

  // ---------------------------------------------------------------------
  // coloursToAllChannels and coloursToChannels
  // ---------------------------------------------------------------------

  /** The indices `0 .. n-1` of an array of length `n`. */
  function Indices(n: nat): (s: set<nat>)
    ensures forall k: nat :: k in s <==> k < n
    ensures |s| == n
  {
    if n == 0 then {} else Indices(n - 1) + {n - 1}
  }

  /** The channel table mapping each of the channels `0 .. n-1` to `colours`. */
  function FanOut(n: nat, colours: seq<Rgb>): (m: map<nat, seq<Rgb>>)
    ensures forall k: nat :: k in m <==> k < n
    ensures forall k :: k in m ==> m[k] == colours
  {
    map k | k in Indices(n) :: colours
  }

  /** The channel table mapping each element of `targets` to `colours`. */
  function Targeted(targets: seq<nat>, colours: seq<Rgb>): (m: map<nat, seq<Rgb>>)
    ensures forall k :: k in m <==> k in targets
    ensures forall k :: k in m ==> m[k] == colours
  {
    map k | k in targets :: colours
  }

  /** coloursToAllChannels on the context value: `spidevs.reduce` throws a
      TypeError when `spidevs` is undefined, before anything is assigned. */
  function ColoursToAllChannelsSpec(c: Fields): (o: Outcome)
    ensures o.trace == [] && (o.threw <==> c.spidevs.None?)
    ensures o.threw ==> o.ctx == c
    ensures !o.threw ==> o.ctx.channelColours.Some?
    ensures !o.threw ==> forall k: nat :: k in o.ctx.channelColours.value <==> k < |c.spidevs.value|
  {
    match c.spidevs
    case None => Outcome(c, [], true)
    case Some(devs) => Outcome(c.(channelColours := Some(FanOut(|devs|, c.colours))), [], false)
  }

  /** coloursToChannels(targets) on the context value. */
  function ColoursToChannelsSpec(targets: seq<nat>, c: Fields): (r: Fields)
    ensures r.channelColours.Some?
    ensures forall k :: k in r.channelColours.value <==> k in targets
    ensures forall k :: k in r.channelColours.value ==> r.channelColours.value[k] == c.colours
  {
    c.(channelColours := Some(Targeted(targets, c.colours)))
  }

  /** The new table of coloursToChannels is built from an empty object: it does
      not depend on the table it replaces, so no earlier entry survives, and it
      has one key per distinct target. */
  lemma ColoursToChannelsReplaces(targets: seq<nat>, c: Fields, table: Option<map<nat, seq<Rgb>>>)
    ensures ColoursToChannelsSpec(targets, c).channelColours
         == ColoursToChannelsSpec(targets, c.(channelColours := table)).channelColours
    ensures ColoursToChannelsSpec(targets, c).channelColours.value.Keys == set k | k in targets
    ensures ColoursToChannelsSpec(targets, c).(channelColours := c.channelColours) == c
  {
  }

  /** The same holds for coloursToAllChannels, whose keys are the indices of
      `spidevs`; it throws exactly when `spidevs` is undefined, and then
      changes nothing. */
  lemma ColoursToAllChannelsReplaces(c: Fields, table: Option<map<nat, seq<Rgb>>>)
    ensures ColoursToAllChannelsSpec(c).threw <==> c.spidevs.None?
    ensures ColoursToAllChannelsSpec(c).trace == []
    ensures ColoursToAllChannelsSpec(c).threw ==> ColoursToAllChannelsSpec(c).ctx == c
    ensures c.spidevs.Some? ==>
      && ColoursToAllChannelsSpec(c).ctx.channelColours
         == ColoursToAllChannelsSpec(c.(channelColours := table)).ctx.channelColours
      && ColoursToAllChannelsSpec(c).ctx.channelColours.value.Keys == Indices(|c.spidevs.value|)
      && ColoursToAllChannelsSpec(c).ctx.(channelColours := c.channelColours) == c
  {
  }

  /** coloursToAllChannels on the context object: the `reduce` over `spidevs`
      assigns each index of the accumulator in turn. */
  method ColoursToAllChannels(ctx: RenderContext) returns (threw: bool)
    modifies ctx
    ensures Outcome(ctx.View(), [], threw) == ColoursToAllChannelsSpec(old(ctx.View()))
  {
    if ctx.spidevs.None? {
      return true;
    }
    var devs := ctx.spidevs.value;
    var colours := ctx.colours;
    var table: map<nat, seq<Rgb>> := map[];
    var channel := 0;
    while channel < |devs|
      invariant channel <= |devs|
      invariant table == FanOut(channel, colours)
      invariant unchanged(ctx)
    {
      FanOutSnoc(channel, colours);
      table := table[channel := colours];
      channel := channel + 1;
    }
    ctx.channelColours := Some(table);
    assert ctx.View() == old(ctx.View()).(channelColours := Some(FanOut(|devs|, colours)));
    threw := false;
  }

  /** One more device index adds one entry to the fanned-out table. */
  lemma FanOutSnoc(n: nat, colours: seq<Rgb>)
    ensures FanOut(n + 1, colours) == FanOut(n, colours)[n := colours]
  {
  }

  /** coloursToChannels(targets) on the context object: the `reduce` over the
      target list assigns each listed channel of the accumulator in turn. */
  method ColoursToChannels(targets: seq<nat>, ctx: RenderContext)
    modifies ctx
    ensures ctx.View() == ColoursToChannelsSpec(targets, old(ctx.View()))
  {
    var colours := ctx.colours;
    var table: map<nat, seq<Rgb>> := map[];
    var i := 0;
    while i < |targets|
      invariant i <= |targets|
      invariant table == Targeted(targets[..i], colours)
    {
      assert targets[..i + 1] == targets[..i] + [targets[i]];
      table := table[targets[i] := colours];
      i := i + 1;
    }
    assert targets[..i] == targets;
    ctx.channelColours := Some(table);
  }
}
