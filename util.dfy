/** The utility functions of the controller: the fixed-width colour format,
    the console error handler used as the SPI completion callback, and the
    frame-rate logger stage. */
module Util {
  import opened Prelude
  import opened Context

  // ---------------------------------------------------------------------
  // colourToString: sprintf('{R:%03d G:%03d B:%03d}', r, g, b)
  // ---------------------------------------------------------------------

  predicate IsDigit(c: char) {
    48 <= c as int <= 57
  }

  function DigitChar(d: nat): (c: char)
    requires d < 10
    ensures IsDigit(c)
  {
    (48 + d) as char
  }

  /** The decimal numeral of `n`, without leading zeros. */
  function Digits(n: nat): (s: string)
    ensures forall i :: 0 <= i < |s| ==> IsDigit(s[i])
    ensures n < 10 ==> |s| == 1
    ensures 10 <= n < 100 ==> |s| == 2
    ensures 100 <= n < 1000 ==> |s| == 3
    ensures 1000 <= n ==> |s| > 3
  {
    if n < 10 then [DigitChar(n)] else Digits(n / 10) + [DigitChar(n % 10)]
  }

  /** The number a string of decimal digits denotes. */
  function DigitsValue(s: string): nat
    requires forall i :: 0 <= i < |s| ==> IsDigit(s[i])
  {
    if s == [] then 0
    else
      assert IsDigit(s[|s| - 1]);
      10 * DigitsValue(s[..|s| - 1]) + (s[|s| - 1] as int - 48)
  }

  function Zeros(k: int): (s: string)
    ensures |s| == (if k < 0 then 0 else k)
    ensures forall i :: 0 <= i < |s| ==> s[i] == '0'
  {
    if k <= 0 then "" else Zeros(k - 1) + "0"
  }

  /** sprintf's `%03d`: the sign, then zeros up to a width of three, then the
      digits of the magnitude; a wider numeral is never cut. */
  function ZeroPad3(n: int): (s: string)
    ensures |s| >= 3
  {
    var sign := if n < 0 then "-" else "";
    var digits := Digits(if n < 0 then -n else n);
    sign + Zeros(3 - |sign + digits|) + digits
  }

  /** `colourToString`: the `{R:%03d G:%03d B:%03d}` rendering of a colour. */
  function ColourToString(c: Rgb): (s: string)
    ensures |s| >= 19
  {
    "{R:" + ZeroPad3(c.r) + " G:" + ZeroPad3(c.g) + " B:" + ZeroPad3(c.b) + "}"
  }

  /** Reads a colour back from the fixed 19-character format; the inverse of
      ColourToString on components in [0, 999]. */
  function ParseColour(s: string): Option<Rgb> {
    if |s| == 19 && s[..3] == "{R:" && s[6..9] == " G:" && s[12..15] == " B:" && s[18] == '}'
       && (forall i :: 3 <= i < 6 ==> IsDigit(s[i]))
       && (forall i :: 9 <= i < 12 ==> IsDigit(s[i]))
       && (forall i :: 15 <= i < 18 ==> IsDigit(s[i]))
    then Some(Rgb(DigitsValue(s[3..6]), DigitsValue(s[9..12]), DigitsValue(s[15..18])))
    else None
  }

  lemma {:induction false} DigitsValueOfDigits(n: nat)
    ensures DigitsValue(Digits(n)) == n
  {
    if n >= 10 {
      var s := Digits(n);
      assert s[..|s| - 1] == Digits(n / 10);
      DigitsValueOfDigits(n / 10);
    }
  }

  lemma {:induction false} DigitsValueZeros(k: nat, s: string)
    requires forall i :: 0 <= i < |s| ==> IsDigit(s[i])
    ensures DigitsValue(Zeros(k) + s) == DigitsValue(s)
    decreases |s|, k
  {
    var z := Zeros(k) + s;
    if s == [] {
      assert z == Zeros(k);
      if k > 0 {
        assert z[..|z| - 1] == Zeros(k - 1) + [];
        DigitsValueZeros(k - 1, []);
      }
    } else {
      assert z[..|z| - 1] == Zeros(k) + s[..|s| - 1];
      DigitsValueZeros(k, s[..|s| - 1]);
    }
  }

  /** For a component in [0, 999], `%03d` gives exactly three digits that
      read back as the component. */
  lemma ZeroPad3Digits(n: int)
    requires 0 <= n < 1000
    ensures |ZeroPad3(n)| == 3
    ensures forall i :: 0 <= i < 3 ==> IsDigit(ZeroPad3(n)[i])
    ensures DigitsValue(ZeroPad3(n)) == n
  {
    var d := Digits(n);
    assert "" + d == d;
    var z := Zeros(3 - |d|);
    assert ZeroPad3(n) == z + d by {
      assert ZeroPad3(n) == "" + z + d;
      assert "" + z + d == z + d;
    }
    DigitsValueOfDigits(n);
    DigitsValueZeros(3 - |d|, d);
    ZerosDigits(3 - |d|, d);
  }

  /** Leading zeros keep a numeral made only of digits. */
  lemma ZerosDigits(k: int, d: string)
    requires forall i :: 0 <= i < |d| ==> IsDigit(d[i])
    ensures forall i :: 0 <= i < |Zeros(k) + d| ==> IsDigit((Zeros(k) + d)[i])
  {
    var z := Zeros(k);
    forall i | 0 <= i < |z + d|
      ensures IsDigit((z + d)[i])
    {
      if i < |z| {
        assert (z + d)[i] == z[i];
      } else {
        assert (z + d)[i] == d[i - |z|];
      }
    }
  }

  /** A colour with components in [0, 999] (so every byte colour) prints as
      exactly 19 characters, and the print reads back as the same colour:
      distinct colours print differently. */
  lemma ColourToStringRoundTrip(c: Rgb)
    requires 0 <= c.r < 1000 && 0 <= c.g < 1000 && 0 <= c.b < 1000
    ensures |ColourToString(c)| == 19
    ensures ParseColour(ColourToString(c)) == Some(c)
  {
    ZeroPad3Digits(c.r);
    ZeroPad3Digits(c.g);
    ZeroPad3Digits(c.b);
    ParseLayout(ZeroPad3(c.r), ZeroPad3(c.g), ZeroPad3(c.b));
  }

  /** The fixed format with three 3-digit fields parses back to those fields. */
  lemma ParseLayout(r: string, g: string, b: string)
    requires |r| == 3 && |g| == 3 && |b| == 3
    requires forall i :: 0 <= i < 3 ==> IsDigit(r[i]) && IsDigit(g[i]) && IsDigit(b[i])
    ensures var s := "{R:" + r + " G:" + g + " B:" + b + "}";
      |s| == 19 && ParseColour(s) == Some(Rgb(DigitsValue(r), DigitsValue(g), DigitsValue(b)))
  {
    var s := "{R:" + r + " G:" + g + " B:" + b + "}";
    assert |s| == 19;
    assert s[..3] == "{R:" && s[6..9] == " G:" && s[12..15] == " B:" && s[18] == '}';
    assert s[3..6] == r && s[9..12] == g && s[15..18] == b;
    assert forall i :: 3 <= i < 6 ==> IsDigit(s[i]) by {
      forall i | 3 <= i < 6 ensures IsDigit(s[i]) { assert s[i] == r[i - 3]; }
    }
    assert forall i :: 9 <= i < 12 ==> IsDigit(s[i]) by {
      forall i | 9 <= i < 12 ensures IsDigit(s[i]) { assert s[i] == g[i - 9]; }
    }
    assert forall i :: 15 <= i < 18 ==> IsDigit(s[i]) by {
      forall i | 15 <= i < 18 ensures IsDigit(s[i]) { assert s[i] == b[i - 15]; }
    }
  }

  // ---------------------------------------------------------------------
  // consoleErrorHandler
  // ---------------------------------------------------------------------

  /** The console output of `consoleErrorHandler(e)`: one error line exactly
      when `e` is truthy. */
  function ConsoleErrorHandler(e: JsValue): (logged: seq<Effect>)
    ensures |logged| <= 1
    ensures |logged| == 1 <==> Truthy(e)
    ensures forall x :: x in logged ==> x == ErrorLog(e)
  {
    if Truthy(e) then [ErrorLog(e)] else []
  }

  // ---------------------------------------------------------------------
  // colourRateLogger
  // ---------------------------------------------------------------------

  /** `channelColours[Object.keys(channelColours)[0]][0]`: the first colour of
      the lowest channel, or None where there is none. With an undefined or
      empty table evaluating the expression throws a TypeError; with an empty
      first list it gives `undefined`, and the report's `colourToString` then
      throws the TypeError. */
  function SomeColour(table: Option<map<nat, seq<Rgb>>>): (c: Option<Rgb>)
    ensures c.Some? <==> table.Some? && table.value != map[] && table.value[Least(table.value.Keys)] != []
    ensures c.Some? ==> c.value == table.value[Least(table.value.Keys)][0]
  {
    match table
    case None => None
    case Some(m) =>
      if m == map[] then None
      else
        var first := OrderedKeys(m.Keys)[0];
        assert first == Least(m.Keys) by {
          IncreasingUnique(OrderedKeys(m.Keys), [Least(m.Keys)] + OrderedKeys(m.Keys - {Least(m.Keys)}));
        }
        if m[first] == [] then None else Some(m[first][0])
  }

  /** Whether the logger reports at time `now`: only when the context has a
      `lastPrint` more than one second in the past (a missing `lastPrint`
      defaults to `now`, which never reports). */
  predicate Reports(c: Fields, now: int) {
    c.lastPrint.Some? && now - c.lastPrint.value > 1
  }

  /** The frame rate reported at `now`: frames counted before this call over
      the seconds since start, plus one. */
  function RateAt(c: Fields, now: int): real
    requires c.start <= now
  {
    c.frames as real / (now - c.start + 1) as real
  }

  /** `colourRateLogger` on the context value at time `now`. */
  function RateLogger(c: Fields, now: int): (o: Outcome)
    requires c.start <= now
    ensures o.ctx.frames == c.frames + 1
    ensures o.ctx == c.(frames := o.ctx.frames, rate := o.ctx.rate, lastPrint := o.ctx.lastPrint)
    ensures !Reports(c, now) ==> o == Outcome(c.(frames := c.frames + 1), [], false)
    ensures Reports(c, now) ==> o.ctx.rate * (now - c.start + 1) as real == c.frames as real
    ensures Reports(c, now) ==> o.threw == SomeColour(c.channelColours).None?
    ensures Reports(c, now) && !o.threw ==>
              o.ctx.lastPrint == Some(now) && o.trace == [RateReport(SomeColour(c.channelColours).value, o.ctx.rate)]
    ensures Reports(c, now) && o.threw ==> o.ctx.lastPrint == c.lastPrint && o.trace == []
  {
    var lastPrint := c.lastPrint.GetOr(now);
    var counted := c.(frames := c.frames + 1);
    if now - lastPrint > 1 then
      var rate := RateAt(c, now);
      var rated := counted.(rate := rate);
      match SomeColour(c.channelColours)
      case None => Outcome(rated, [], true)
      case Some(colour) => Outcome(rated.(lastPrint := Some(now)), [RateReport(colour, rate)], false)
    else
      Outcome(counted, [], false)
  }

  /** Reports are at least two seconds apart: after a report at `t1`, a call at
      `t2` reports only when `t2 > t1 + 1`. */
  lemma ReportsSpaced(c: Fields, t1: int, t2: int)
    requires c.start <= t1 <= t2
    requires Reports(c, t1) && !RateLogger(c, t1).threw
    ensures Reports(RateLogger(c, t1).ctx, t2) <==> t2 > t1 + 1
  {
  }

  /** The frame counter advances by exactly one per call, whatever else
      happens, so after `k` calls it has advanced by `k`. */
  function RateLoggerCalls(c: Fields, now: int, k: nat): (r: Fields)
    requires c.start <= now
    ensures r.start == c.start
    ensures r.frames == c.frames + k
    decreases k
  {
    if k == 0 then c else RateLoggerCalls(RateLogger(c, now).ctx, now, k - 1)
  }

  /** colourRateLogger on the context object: `frames`, `rate` and `lastPrint`
      are updated in place, and the report, if any, is returned as an effect. */
  method ColourRateLogger(ctx: RenderContext, now: int) returns (trace: seq<Effect>, threw: bool)
    requires ctx.start <= now
    modifies ctx
    ensures Outcome(ctx.View(), trace, threw) == RateLogger(old(ctx.View()), now)
  {
    var lastPrint := if ctx.lastPrint.Some? then ctx.lastPrint.value else now;
    var frames := ctx.frames;
    ctx.frames := ctx.frames + 1;
    trace, threw := [], false;
    if now - lastPrint > 1 {
      ctx.rate := frames as real / (now - ctx.start + 1) as real;
      var someColour := SomeColour(ctx.channelColours);
      if someColour.None? {
        threw := true;
        return;
      }
      trace := [RateReport(someColour.value, ctx.rate)];
      ctx.lastPrint := Some(now);
    }
  }
}
