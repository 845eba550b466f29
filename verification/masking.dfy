/** numpy boolean-mask indexing (`x[m]` reads, `x[m] = v` writes) and the
    zero-filling `unmask` helper built on it. Masks and arrays are aligned by
    position; a mask selects its `True` positions in ascending order. */
module Masking {
  import opened Layout

  /** Number of `True` entries: the length of `x[m]`. */
  function Count(m: seq<bool>): (n: nat)
    ensures n <= |m|
  {
    if |m| == 0 then 0 else (if m[0] then 1 else 0) + Count(m[1..])
  }

  /** `xs[m]`: the entries at the `True` positions of `m`, in order. */
  function Select<T>(xs: seq<T>, m: seq<bool>): (r: seq<T>)
    requires |xs| == |m|
    ensures |r| == Count(m)
  {
    if |xs| == 0 then []
    else (if m[0] then [xs[0]] else []) + Select(xs[1..], m[1..])
  }

  /** `t[m] = vals` on a copy of `t`: the `True` positions receive `vals` in
      order, every other position keeps its entry. This takes one value per
      `True` position; numpy also accepts a single value and broadcasts it,
      a case that reaches `Unmask` only on inputs `Decay.Supported`
      excludes. */
  function Scatter<T>(t: seq<T>, m: seq<bool>, vals: seq<T>): (r: seq<T>)
    requires |t| == |m| && |vals| == Count(m)
    ensures |r| == |t|
  {
    if |t| == 0 then []
    else if m[0] then [vals[0]] + Scatter(t[1..], m[1..], vals[1..])
    else [t[0]] + Scatter(t[1..], m[1..], vals)
  }

  /** tedana's `utils.unmask(vals, m)`: a fresh zero-filled array of the
      mask's length with `vals` scattered into the `True` positions. */
  function Unmask<T>(vals: seq<T>, m: seq<bool>, zero: T): (r: seq<T>)
    requires |vals| == Count(m)
    ensures |r| == |m|
    ensures forall i {:trigger r[i]} :: 0 <= i < |m| && !m[i] ==> r[i] == zero
    ensures Select(r, m) == vals
  {
    var t := seq(|m|, _ => zero);
    ScatterOutside(t, m, vals);
    SelectScatter(t, m, vals);
    Scatter(t, m, vals)
  }

  /** Writing through a mask leaves every `False` position as it was. */
  lemma {:induction false} ScatterOutside<T>(t: seq<T>, m: seq<bool>, vals: seq<T>)
    requires |t| == |m| && |vals| == Count(m)
    ensures forall i :: 0 <= i < |t| && !m[i] ==> Scatter(t, m, vals)[i] == t[i]
  {
    if |t| > 0 {
      var rest := if m[0] then vals[1..] else vals;
      ScatterOutside(t[1..], m[1..], rest);
      var r := Scatter(t, m, vals);
      assert r[1..] == Scatter(t[1..], m[1..], rest);
    }
  }

  /** Writing back what was read through the same mask: the `True` positions
      take the values of `xs`, the others keep `t`. */
  lemma {:induction false} ScatterSelect<T>(t: seq<T>, m: seq<bool>, xs: seq<T>)
    requires |t| == |m| && |xs| == |m|
    ensures forall i :: 0 <= i < |t| ==> Scatter(t, m, Select(xs, m))[i] == if m[i] then xs[i] else t[i]
  {
    if |t| > 0 {
      ScatterSelect(t[1..], m[1..], xs[1..]);
      var sel := Select(xs, m);
      var r := Scatter(t, m, sel);
      if m[0] {
        assert sel == [xs[0]] + Select(xs[1..], m[1..]);
        assert sel[1..] == Select(xs[1..], m[1..]);
        assert r == [xs[0]] + Scatter(t[1..], m[1..], Select(xs[1..], m[1..]));
      } else {
        assert sel == Select(xs[1..], m[1..]);
        assert r == [t[0]] + Scatter(t[1..], m[1..], Select(xs[1..], m[1..]));
      }
    }
  }

  /** Reading back what was written through the same mask returns it. */
  lemma {:induction false} SelectScatter<T>(t: seq<T>, m: seq<bool>, vals: seq<T>)
    requires |t| == |m| && |vals| == Count(m)
    ensures Select(Scatter(t, m, vals), m) == vals
  {
    if |t| > 0 {
      var r := Scatter(t, m, vals);
      if m[0] {
        SelectScatter(t[1..], m[1..], vals[1..]);
        assert r[1..] == Scatter(t[1..], m[1..], vals[1..]);
        assert vals == [vals[0]] + vals[1..];
      } else {
        SelectScatter(t[1..], m[1..], vals);
        assert r[1..] == Scatter(t[1..], m[1..], vals);
      }
    }
  }

  /** An unmasked array reads `xs` inside the mask and `zero` outside it. */
  lemma UnmaskSelect<T>(xs: seq<T>, m: seq<bool>, zero: T)
    requires |xs| == |m|
    ensures forall i :: 0 <= i < |m| ==> Unmask(Select(xs, m), m, zero)[i] == if m[i] then xs[i] else zero
  {
    ScatterSelect(seq(|m|, _ => zero), m, xs);
  }

  /** Selecting commutes with elementwise application. */
  lemma {:induction false} SelectMap<T, U>(f: T -> U, xs: seq<T>, m: seq<bool>)
    requires |xs| == |m|
    ensures Select(Map(f, xs), m) == Map(f, Select(xs, m))
  {
    if |xs| > 0 {
      SelectMap(f, xs[1..], m[1..]);
      assert Map(f, xs)[1..] == Map(f, xs[1..]);
      var sel := Select(xs, m);
      if m[0] {
        assert sel == [xs[0]] + Select(xs[1..], m[1..]);
        assert Map(f, sel) == [f(xs[0])] + Map(f, Select(xs[1..], m[1..]));
      } else {
        assert sel == Select(xs[1..], m[1..]);
      }
    }
  }

  /** Whatever holds of every entry holds of every selected entry. */
  lemma {:induction false} SelectKeeps<T>(xs: seq<T>, m: seq<bool>, p: T -> bool)
    requires |xs| == |m|
    requires forall i :: 0 <= i < |xs| ==> p(xs[i])
    ensures forall i :: 0 <= i < |Select(xs, m)| ==> p(Select(xs, m)[i])
  {
    if |xs| > 0 {
      SelectKeeps(xs[1..], m[1..], p);
      var rest := Select(xs[1..], m[1..]);
      assert Select(xs, m) == (if m[0] then [xs[0]] else []) + rest;
    }
  }

  /** A mask with no `True` entry selects nothing. */
  lemma {:induction false} SelectNone<T>(xs: seq<T>, m: seq<bool>)
    requires |xs| == |m|
    requires forall i :: 0 <= i < |m| ==> !m[i]
    ensures Select(xs, m) == []
  {
    if |xs| > 0 {
      SelectNone(xs[1..], m[1..]);
    }
  }

  /** A mask whose only `True` entry is at `j` selects exactly `xs[j]`. */
  lemma {:induction false} SelectOne<T>(xs: seq<T>, m: seq<bool>, j: nat)
    requires |xs| == |m| && j < |m|
    requires forall i :: 0 <= i < |m| ==> (m[i] <==> i == j)
    ensures Select(xs, m) == [xs[j]]
  {
    if j == 0 {
      SelectNone(xs[1..], m[1..]);
    } else {
      SelectOne(xs[1..], m[1..], j - 1);
    }
  }

  /** Concatenating blocks that each hold `vals[s]` when `flags[s]` and
      nothing otherwise is the same as selecting `vals` by `flags`. */
  lemma {:induction false} ConcatSingletons<T>(parts: seq<seq<T>>, flags: seq<bool>, vals: seq<T>)
    requires |parts| == |flags| && |vals| == |flags|
    requires forall s :: 0 <= s < |parts| ==> parts[s] == if flags[s] then [vals[s]] else []
    ensures Concat(parts) == Select(vals, flags)
  {
    if |parts| > 0 {
      ConcatSingletons(parts[1..], flags[1..], vals[1..]);
    }
  }

  /** Counting the `True` entries of `b[m]` counts the positions where both
      `m` and `b` hold. */
  lemma {:induction false} CountSelect(b: seq<bool>, m: seq<bool>)
    requires |b| == |m|
    ensures Count(Select(b, m)) == Count(seq(|m|, i requires 0 <= i < |m| => m[i] && b[i]))
  {
    var both := seq(|m|, i requires 0 <= i < |m| => m[i] && b[i]);
    if |m| > 0 {
      CountSelect(b[1..], m[1..]);
      assert both[1..] == seq(|m| - 1, i requires 0 <= i < |m| - 1 => m[1..][i] && b[1..][i]);
      CountAppend((if m[0] then [b[0]] else []), Select(b[1..], m[1..]));
    }
  }

  /** Counting is additive over concatenation. */
  lemma {:induction false} CountAppend(a: seq<bool>, b: seq<bool>)
    ensures Count(a + b) == Count(a) + Count(b)
  {
    if |a| > 0 {
      CountAppend(a[1..], b);
      assert (a + b)[1..] == a[1..] + b;
    } else {
      assert a + b == b;
    }
  }
}
