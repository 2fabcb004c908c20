/**
 * PHP values as the backend sees them: request data decoded from JSON, rows
 * fetched with PDO::FETCH_ASSOC and values read back from the cache.
 * An associative array whose order does not matter is a `Record`; one whose
 * iteration order matters (a `foreach` that builds SQL) is a `Pairs`.
 */
module Php {

  /** A PHP scalar. `!==` is Dafny's `!=` on this type: `Str("5") != Int(5)`. */
  datatype Val = Null | Bool(b: bool) | Int(i: int) | Str(s: string)

  type Record = map<string, Val>

  /** An ordered associative array, in insertion order. */
  type Pairs = seq<(string, Val)>

  /** `$a[$k]`, which reads a missing key as null. */
  function Get(r: Record, k: string): Val
  {
    if k in r then r[k] else Null
  }

  /** `isset($a[$k])`: present and not null. */
  predicate IsSet(r: Record, k: string)
  {
    k in r && r[k] != Null
  }

  /** PHP's conversion of a scalar to bool; `empty($v)` is its negation. */
  predicate Truthy(v: Val)
  {
    match v
    case Null => false
    case Bool(b) => b
    case Int(i) => i != 0
    case Str(s) => s != "" && s != "0"
  }

  predicate IsDigit(c: char)
  {
    '0' <= c <= '9'
  }

  /** One or more ASCII digits, what `\d+` matches. */
  predicate IsDigits(s: string)
  {
    |s| > 0 && forall i | 0 <= i < |s| :: IsDigit(s[i])
  }

  function DigitChar(d: nat): (c: char)
    requires d < 10
    ensures IsDigit(c) && (c as int) - ('0' as int) == d
  {
    ('0' as int + d) as char
  }

  /** The decimal text PHP produces when it interpolates a non-negative int. */
  function NatToString(n: nat): (s: string)
    ensures IsDigits(s)
    ensures |s| > 1 ==> s[0] != '0'
  {
    if n < 10 then [DigitChar(n)] else NatToString(n / 10) + [DigitChar(n % 10)]
  }

  /** The decimal text of any int, with a leading '-' when negative. */
  function IntToString(i: int): (s: string)
    ensures |s| > 0
    ensures s[0] == '-' <==> i < 0
  {
    if i < 0 then "-" + NatToString(-i) else NatToString(i)
  }

  /** The number a digit string denotes, as PDO's PARAM_INT binding reads it. */
  function DigitsValue(s: string): nat
    requires forall i | 0 <= i < |s| :: IsDigit(s[i])
  {
    if |s| == 0 then 0
    else DigitsValue(s[..|s| - 1]) * 10 + DigitValue(s[|s| - 1])
  }

  function DigitValue(c: char): (d: nat)
    requires IsDigit(c)
    ensures d < 10
  {
    (c as int) - ('0' as int)
  }

  /** Reading back the text of a number gives the number. */
  lemma {:induction false} DigitsValueOfNatToString(n: nat)
    ensures DigitsValue(NatToString(n)) == n
  {
    if n >= 10 {
      var s := NatToString(n);
      assert s[..|s| - 1] == NatToString(n / 10);
      DigitsValueOfNatToString(n / 10);
    }
  }

  /** Leading zeros do not change the value a digit string denotes. */
  lemma {:induction false} DigitsValueLeadingZero(s: string)
    requires IsDigits(s)
    ensures IsDigits("0" + s) && DigitsValue("0" + s) == DigitsValue(s)
  {
    var t := "0" + s;
    assert t[..|t| - 1] == "0" + s[..|s| - 1];
    if |s| > 1 {
      DigitsValueLeadingZero(s[..|s| - 1]);
    } else {
      assert t[..|t| - 1] == "0";
      assert DigitsValue("0") == DigitsValue("0"[..0]) * 10 + 0;
    }
  }

  predicate StartsWith(s: string, prefix: string)
  {
    |prefix| <= |s| && s[..|prefix|] == prefix
  }

  /** `rtrim($s, $chars)`: drops every trailing character that is in `chars`. */
  function RTrim(s: string, chars: set<char>): (r: string)
    ensures |r| <= |s| && r == s[..|r|]
    ensures r == [] || r[|r| - 1] !in chars
    ensures forall i | |r| <= i < |s| :: s[i] in chars
    decreases |s|
  {
    if |s| > 0 && s[|s| - 1] in chars then RTrim(s[..|s| - 1], chars) else s
  }

  /** Trimming a tail made only of trimmed characters gives back the text before it. */
  lemma {:induction false} RTrimDropsSuffix(x: string, t: string, chars: set<char>)
    requires forall i | 0 <= i < |t| :: t[i] in chars
    requires x == [] || x[|x| - 1] !in chars
    ensures RTrim(x + t, chars) == x
    decreases |t|
  {
    if |t| == 0 {
      assert x + t == x;
    } else {
      var s := x + t;
      assert s[..|s| - 1] == x + t[..|t| - 1];
      RTrimDropsSuffix(x, t[..|t| - 1], chars);
    }
  }

  /** The keys of an ordered array (or of any list of keyed entries), in order. */
  function PairKeys<V>(p: seq<(string, V)>): (ks: seq<string>)
    ensures |ks| == |p| && forall i | 0 <= i < |p| :: ks[i] == p[i].0
  {
    if |p| == 0 then [] else [p[0].0] + PairKeys(p[1..])
  }

  /**
   * The parameters a `foreach ($data as $key => $value)` loop binds: every
   * key in order, each with the value `bind` makes of its entry.
   */
  function BindAll(data: Pairs, bind: ((string, Val)) -> Val): (b: Pairs)
    ensures |b| == |data| && forall i | 0 <= i < |data| :: b[i] == (data[i].0, bind(data[i]))
    ensures PairKeys(b) == PairKeys(data)
  {
    if |data| == 0 then [] else [(data[0].0, bind(data[0]))] + BindAll(data[1..], bind)
  }

  /** Binding one more entry appends its parameter. */
  lemma {:induction false} BindAllAppend(data: Pairs, kv: (string, Val), bind: ((string, Val)) -> Val)
    ensures BindAll(data + [kv], bind) == BindAll(data, bind) + [(kv.0, bind(kv))]
  {
    if |data| > 0 {
      assert (data + [kv])[1..] == data[1..] + [kv];
      BindAllAppend(data[1..], kv, bind);
    } else {
      assert data + [kv] == [kv];
    }
  }

  /** PHP arrays never hold a key twice. */
  predicate UniqueKeys(p: Pairs)
  {
    forall i, j | 0 <= i < j < |p| :: p[i].0 != p[j].0
  }

  /** Two arrays with the same keys in the same order agree on having no key twice. */
  lemma UniqueKeysSameKeys(a: Pairs, b: Pairs)
    requires PairKeys(a) == PairKeys(b) && UniqueKeys(a)
    ensures UniqueKeys(b)
  {
    assert forall i | 0 <= i < |b| :: b[i].0 == PairKeys(b)[i];
  }

  /** Keys of the first `i` entries, carried by `b`, are distinct and leave out the key of entry `i`. */
  lemma PrefixKeysFresh(data: Pairs, i: int, b: Pairs)
    requires UniqueKeys(data) && 0 <= i < |data| && PairKeys(b) == PairKeys(data[..i])
    ensures UniqueKeys(b) && data[i].0 !in PairKeys(b)
  {
    UniqueKeysSameKeys(data[..i], b);
    assert forall j | 0 <= j < i :: PairKeys(b)[j] == data[j].0;
  }

  /** `$p[$k] = $v`: overwrites the entry with key `k` in place, or appends one. */
  function Assign(p: Pairs, k: string, v: Val): (r: Pairs)
    requires UniqueKeys(p)
    ensures UniqueKeys(r)
    ensures (k in PairKeys(p) ==> |r| == |p|) && (k !in PairKeys(p) ==> r == p + [(k, v)])
    ensures forall i | 0 <= i < |p| :: r[i] == (if p[i].0 == k then (k, v) else p[i])
  {
    if |p| == 0 then [(k, v)]
    else if p[0].0 == k then [(k, v)] + p[1..]
    else [p[0]] + Assign(p[1..], k, v)
  }

  /** No entry after `j` assigns the key of entry `j`. */
  predicate LastFor(p: Pairs, j: int)
    requires 0 <= j < |p|
  {
    forall l | j < l < |p| :: p[l].0 != p[j].0
  }

  /**
   * What `SET key = value, ...` does to one row: the assigned columns are
   * added, a column nobody assigns keeps its value, and every assigned
   * column holds the value of its last assignment.
   */
  ghost predicate AssignedRow(before: Record, after: Record, p: Pairs)
  {
    && after.Keys == before.Keys + (set i | 0 <= i < |p| :: p[i].0)
    && (forall k | k in before && k !in PairKeys(p) :: after[k] == before[k])
    && (forall j | 0 <= j < |p| && LastFor(p, j) :: after[p[j].0] == p[j].1)
  }

  /** The row after `SET key = value` for every entry of `p`, in order. */
  function Overlay(r: Record, p: Pairs): (r': Record)
    ensures r'.Keys == r.Keys + set i | 0 <= i < |p| :: p[i].0
    ensures forall k | k in r && k !in PairKeys(p) :: r'[k] == r[k]
    decreases |p|
  {
    if |p| == 0 then r else Overlay(r[p[0].0 := p[0].1], p[1..])
  }

  /** Applying the entries one by one gives the row `SET` describes. */
  lemma {:induction false} OverlayAssigns(r: Record, p: Pairs)
    ensures AssignedRow(r, Overlay(r, p), p)
    decreases |p|
  {
    if |p| > 0 {
      var r1 := r[p[0].0 := p[0].1];
      var q := p[1..];
      OverlayAssigns(r1, q);
      forall j | 0 <= j < |p| && LastFor(p, j) ensures Overlay(r, p)[p[j].0] == p[j].1 {
        if j == 0 {
          assert forall l | 0 <= l < |q| :: PairKeys(q)[l] == q[l].0 && q[l] == p[l + 1];
          assert p[0].0 !in PairKeys(q);
        } else {
          assert q[j - 1] == p[j];
          assert LastFor(q, j - 1);
        }
      }
    }
  }

  lemma OverlayAssignsAll(p: Pairs)
    ensures forall r :: AssignedRow(r, Overlay(r, p), p)
  {
    forall r ensures AssignedRow(r, Overlay(r, p), p) {
      OverlayAssigns(r, p);
    }
  }

  /** A key whose every assignment writes the value it already has keeps it. */
  lemma {:induction false} OverlayKeeps(r: Record, p: Pairs, k: string, v: Val)
    requires k in r && r[k] == v
    requires forall i | 0 <= i < |p| && p[i].0 == k :: p[i].1 == v
    ensures k in Overlay(r, p) && Overlay(r, p)[k] == v
    decreases |p|
  {
    if |p| > 0 {
      OverlayKeeps(r[p[0].0 := p[0].1], p[1..], k, v);
    }
  }

  lemma ConcatAssoc(a: string, b: string, c: string)
    ensures a + b + c == a + (b + c)
  {
  }
}
