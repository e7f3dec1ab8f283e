/** Value types shared by every module: optional values, bytes, and the few
    pieces of JavaScript value semantics the controller relies on (truthiness,
    the truncating remainder operator, and the order in which `Object.keys`
    lists integer-like keys). */
module Prelude {

  datatype Option<T> = None | Some(value: T) {
    /** The value, or `default` when absent (a destructuring default in JavaScript). */
    function GetOr(default: T): T {
      match this
      case Some(v) => v
      case None => default
    }
  }

  type byte = b: int | 0 <= b < 256

  /** A JavaScript value, as far as a truthiness test can tell values apart. */
  datatype JsValue =
    | Undefined
    | Null
    | Bool(b: bool)
    | Num(n: int)
    | Str(s: string)
    | Obj(name: string)

  /** `if (v)` in JavaScript. */
  predicate Truthy(v: JsValue) {
    match v
    case Undefined => false
    case Null => false
    case Bool(b) => b
    case Num(n) => n != 0
    case Str(s) => s != ""
    case Obj(_) => true
  }

  /** JavaScript `a % n` for a positive divisor: the remainder takes the sign
      of the dividend, where Dafny's own `%` never returns a negative value.
      It is Dafny's remainder, or that remainder less `n`; with the sign rule
      this fixes its value. */
  function JsRem(a: int, n: int): (r: int)
    requires n > 0
    ensures -n < r < n
    ensures a >= 0 ==> r == a % n
    ensures a < 0 ==> r <= 0
    ensures r == a % n || r == a % n - n
  {
    if a >= 0 then a % n
    else
      var m := -a;
      var q, t := m / n, m % n;
      assert m == n * q + t;
      if t == 0 then
        assert a == n * (-q) + 0;
        RemUnique(a, n, -q, 0);
        0
      else
        assert a == n * (-q - 1) + (n - t);
        RemUnique(a, n, -q - 1, n - t);
        -t
  }

  /** Euclidean remainder is determined by any decomposition with a remainder
      in range. */
  lemma RemUnique(x: int, d: int, q: int, r: int)
    requires d >= 1 && 0 <= r < d && x == d * q + r
    ensures x % d == r
  {
    var q0, r0 := x / d, x % d;
    assert x == d * q0 + r0;
    if q0 < q {
      MulLe(d, q0 + 1, q);
      assert false;
    } else if q < q0 {
      MulLe(d, q + 1, q0);
      assert false;
    }
  }

  lemma MulLe(d: int, a: int, b: int)
    requires d >= 0 && a <= b
    ensures d * a <= d * b
  {
    assert d * b - d * a == d * (b - a);
  }

  predicate Increasing(s: seq<nat>) {
    forall i, j :: 0 <= i < j < |s| ==> s[i] < s[j]
  }

  lemma {:induction false} LeastExists(s: set<nat>)
    requires s != {}
    ensures exists m :: m in s && forall x :: x in s ==> m <= x
  {
    var x :| x in s;
    if s != {x} {
      LeastExists(s - {x});
      var m :| m in s - {x} && forall y :: y in s - {x} ==> m <= y;
      var least := if x < m then x else m;
      forall y | y in s
        ensures least <= y
      {
        if y != x {
          assert y in s - {x};
        }
      }
      assert least in s;
    } else {
      assert forall y :: y in s ==> x <= y;
    }
  }

  /** The smallest key of a non-empty key set. */
  function Least(s: set<nat>): (m: nat)
    requires s != {}
    ensures m in s
    ensures forall x :: x in s ==> m <= x
  {
    LeastExists(s);
    var m :| m in s && (forall x :: x in s ==> m <= x);
    m
  }

  /** `Object.keys(o)` for an object whose keys are array indices: every key
      once, in ascending numeric order. */
  function OrderedKeys(s: set<nat>): (r: seq<nat>)
    ensures Increasing(r)
    ensures forall x :: x in r <==> x in s
    ensures |r| == |s|
    decreases |s|
  {
    if s == {} then []
    else
      var m := Least(s);
      var rest := OrderedKeys(s - {m});
      assert forall x :: x in rest ==> m < x;
      [m] + rest
  }

  /** Two ascending sequences with the same elements are the same sequence, so
      OrderedKeys is the only ordering of a key set that `Object.keys` can give. */
  lemma {:induction false} IncreasingUnique(a: seq<nat>, b: seq<nat>)
    requires Increasing(a) && Increasing(b)
    requires forall x :: x in a <==> x in b
    ensures a == b
  {
    assert a != [] ==> a[0] in b;
    assert b != [] ==> b[0] in a;
    if a != [] && b != [] {
      var ja :| 0 <= ja < |a| && a[ja] == b[0];
      var jb :| 0 <= jb < |b| && b[jb] == a[0];
      assert a[0] <= a[ja] && b[0] <= b[jb];
      forall x
        ensures x in a[1..] <==> x in b[1..]
      {
        if x in a[1..] {
          var i :| 1 <= i < |a| && a[i] == x;
          assert a[0] < x && x in a && x in b;
          var j :| 0 <= j < |b| && b[j] == x;
          assert j != 0;
          assert b[1..][j - 1] == x;
        }
        if x in b[1..] {
          var i :| 1 <= i < |b| && b[i] == x;
          assert b[0] < x && x in b && x in a;
          var j :| 0 <= j < |a| && a[j] == x;
          assert j != 0;
          assert a[1..][j - 1] == x;
        }
      }
      IncreasingUnique(a[1..], b[1..]);
      HeadTail(a);
      HeadTail(b);
    }
  }

  // Sequence identities, each proved on its own so that callers do not pay
  // for extensionality in a large context.

  lemma TakeSnoc<T>(s: seq<T>, i: nat)
    requires i < |s|
    ensures s[..i + 1] == s[..i] + [s[i]]
  {
  }

  lemma TakeDrop<T>(s: seq<T>, i: nat)
    requires i <= |s|
    ensures s[..i] + s[i..] == s
  {
  }

  lemma HeadTail<T>(s: seq<T>)
    requires s != []
    ensures s == [s[0]] + s[1..]
  {
  }

  lemma TakeAll<T>(s: seq<T>)
    ensures s[..|s|] == s
  {
  }
}
