/** Number extraction: `stream >> value` for a `float`.

    The exact number syntax of `operator>>` (prefix acceptance, exponents,
    rounding to `float`) is deliberately left abstract: a `Scanner` is any
    total function that, given the unread rest of a stream, either fails or
    yields a value together with how many characters it consumed. Only the
    two facts every `operator>>` obeys are assumed of it:
      - a successful extraction consumes at least one character and no
        more than are there;
      - text made of whitespace only (or nothing) yields no number, since
        the leading whitespace is skipped and end of input is reached. */
module Scanner {
  import opened Outcomes
  import opened Text

  datatype Scanned = Scanned(value: real, used: nat)

  ghost predicate Lawful(f: string -> Option<Scanned>) {
    && (forall s: string :: f(s).Some? ==> 0 < f(s).value.used <= |s|)
    && (forall s: string {:trigger Blank(s)} :: Blank(s) ==> f(s).None?)
  }

  type Scanner = f: string -> Option<Scanned> | Lawful(f) witness (s: string) => None

  /** Whitespace mode, `while (iss >> value) vec.push_back(value);`:
      extract numbers one after another until the first extraction fails,
      which ends the loop silently. */
  function ScanAll(scan: Scanner, s: string): (vs: seq<real>)
    ensures scan(s).None? <==> vs == []
    decreases |s|
  {
    match scan(s)
    case None => []
    case Some(t) => [t.value] + ScanAll(scan, s[t.used..])
  }

  /** Whitespace-only text holds no number. */
  lemma ScanAllBlank(scan: Scanner, s: string)
    requires Blank(s)
    ensures ScanAll(scan, s) == []
  {
  }

  /** An independent, positional account of whitespace mode: `ps[k]` is
      where the k-th extraction starts, each extraction starts where the
      previous one stopped and yields `vs[k]`, and the extraction after the
      last value fails. */
  ghost predicate ChainAt(scan: Scanner, s: string, vs: seq<real>, ps: seq<nat>) {
    && |ps| == |vs| + 1
    && ps[0] == 0
    && InBounds(s, ps)
    && Steps(scan, s, vs, ps)
    && scan(s[ps[|vs|]..]).None?
  }

  ghost predicate InBounds(s: string, ps: seq<nat>) {
    forall k :: 0 <= k < |ps| ==> ps[k] <= |s|
  }

  ghost predicate Steps(scan: Scanner, s: string, vs: seq<real>, ps: seq<nat>)
    requires |ps| == |vs| + 1 && InBounds(s, ps)
  {
    forall k :: 0 <= k < |vs| ==>
      ps[k] < ps[k + 1] && scan(s[ps[k]..]) == Some(Scanned(vs[k], ps[k + 1] - ps[k]))
  }

  ghost predicate ReadsAs(scan: Scanner, s: string, vs: seq<real>) {
    exists ps: seq<nat> :: ChainAt(scan, s, vs, ps)
  }

  /** Whitespace mode yields exactly the values of successive successful
      extractions, stopping at the first one that fails. */
  lemma ScanAllIsChain(scan: Scanner, s: string, vs: seq<real>)
    ensures vs == ScanAll(scan, s) <==> ReadsAs(scan, s, vs)
  {
    if vs == ScanAll(scan, s) {
      ChainOfIsChain(scan, s);
    }
    if ReadsAs(scan, s, vs) {
      var ps :| ChainAt(scan, s, vs, ps);
      ChainDetermines(scan, s, vs, ps);
    }
  }

  /** The start positions of the extractions `ScanAll` performs. */
  ghost function ChainOf(scan: Scanner, s: string): seq<nat>
    decreases |s|
  {
    match scan(s)
    case None => [0]
    case Some(t) => [0] + Shift(ChainOf(scan, s[t.used..]), t.used)
  }

  function Shift(ps: seq<nat>, d: nat): (qs: seq<nat>)
    ensures |qs| == |ps|
    ensures forall k :: 0 <= k < |ps| ==> qs[k] == ps[k] + d
  {
    seq(|ps|, k requires 0 <= k < |ps| => ps[k] + d)
  }

  lemma {:induction false} ChainOfIsChain(scan: Scanner, s: string)
    ensures ChainAt(scan, s, ScanAll(scan, s), ChainOf(scan, s))
    decreases |s|
  {
    match scan(s)
    case None =>
      assert s[0..] == s;
    case Some(t) =>
      ChainOfIsChain(scan, s[t.used..]);
      ConsChain(scan, s, t, ScanAll(scan, s[t.used..]), ChainOf(scan, s[t.used..]));
  }

  /** One successful extraction in front of a chain is a longer chain. */
  lemma ConsChain(scan: Scanner, s: string, t: Scanned, vr: seq<real>, tail: seq<nat>)
    requires scan(s) == Some(t)
    requires ChainAt(scan, s[t.used..], vr, tail)
    ensures ChainAt(scan, s, [t.value] + vr, [0] + Shift(tail, t.used))
  {
    var u := t.used;
    var ps := [0] + Shift(tail, u);
    var vs := [t.value] + vr;
    assert InBounds(s, ps) by {
      forall k | 0 <= k < |ps| ensures ps[k] <= |s| {
        if k > 0 { assert ps[k] == tail[k - 1] + u; }
      }
    }
    ConsSteps(scan, s, t, vr, tail);
    ShiftedSuffix(s, u, tail[|vr|]);
  }

  lemma ConsSteps(scan: Scanner, s: string, t: Scanned, vr: seq<real>, tail: seq<nat>)
    requires scan(s) == Some(t)
    requires |tail| == |vr| + 1 && tail[0] == 0 && InBounds(s[t.used..], tail)
    requires Steps(scan, s[t.used..], vr, tail)
    ensures InBounds(s, [0] + Shift(tail, t.used))
    ensures Steps(scan, s, [t.value] + vr, [0] + Shift(tail, t.used))
  {
    ConsBounds(s, t.used, tail);
    ConsEach(scan, s, t, vr, tail, [0] + Shift(tail, t.used), [t.value] + vr);
  }

  lemma ConsEach(scan: Scanner, s: string, t: Scanned, vr: seq<real>, tail: seq<nat>,
                 ps: seq<nat>, vs: seq<real>)
    requires scan(s) == Some(t)
    requires |tail| == |vr| + 1 && tail[0] == 0 && InBounds(s[t.used..], tail)
    requires Steps(scan, s[t.used..], vr, tail)
    requires ps == [0] + Shift(tail, t.used) && vs == [t.value] + vr
    ensures |ps| == |vs| + 1
    ensures forall k :: 0 <= k < |vs| ==>
      ps[k] < ps[k + 1] && scan(s[ps[k]..]) == Some(Scanned(vs[k], ps[k + 1] - ps[k]))
  {
    forall k | 0 <= k < |vs|
      ensures ps[k] < ps[k + 1] && scan(s[ps[k]..]) == Some(Scanned(vs[k], ps[k + 1] - ps[k]))
    {
      ConsStep(scan, s, t, vr, tail, k);
    }
  }

  lemma ConsBounds(s: string, u: nat, tail: seq<nat>)
    requires u <= |s| && InBounds(s[u..], tail)
    ensures InBounds(s, [0] + Shift(tail, u))
  {
    var ps := [0] + Shift(tail, u);
    forall k | 0 <= k < |ps| ensures ps[k] <= |s| {
      if k > 0 { assert ps[k] == tail[k - 1] + u; }
    }
  }

  lemma ConsStep(scan: Scanner, s: string, t: Scanned, vr: seq<real>, tail: seq<nat>, k: nat)
    requires scan(s) == Some(t)
    requires |tail| == |vr| + 1 && tail[0] == 0 && InBounds(s[t.used..], tail)
    requires Steps(scan, s[t.used..], vr, tail)
    requires k <= |vr|
    ensures var ps := [0] + Shift(tail, t.used); var vs := [t.value] + vr;
      ps[k] < ps[k + 1] && scan(s[ps[k]..]) == Some(Scanned(vs[k], ps[k + 1] - ps[k]))
  {
    if k == 0 {
      assert s[0..] == s;
    } else {
      LaterStep(scan, s, t.used, vr, tail, k - 1);
    }
  }

  lemma LaterStep(scan: Scanner, s: string, u: nat, vr: seq<real>, tail: seq<nat>, k: nat)
    requires u <= |s|
    requires |tail| == |vr| + 1 && InBounds(s[u..], tail)
    requires Steps(scan, s[u..], vr, tail)
    requires k < |vr|
    ensures tail[k] + u < tail[k + 1] + u
    ensures scan(s[tail[k] + u..]) == Some(Scanned(vr[k], tail[k + 1] - tail[k]))
  {
    ShiftedSuffix(s, u, tail[k]);
  }

  lemma ShiftedSuffix(s: string, u: nat, p: nat)
    requires u <= |s| && p <= |s| - u
    ensures s[p + u..] == s[u..][p..]
  {
  }

  lemma {:induction false} ChainMonotone(scan: Scanner, s: string, vs: seq<real>, ps: seq<nat>, i: nat, j: nat)
    requires ChainAt(scan, s, vs, ps)
    requires i <= j < |ps|
    ensures ps[i] <= ps[j]
    decreases j - i
  {
    if i < j {
      ChainMonotone(scan, s, vs, ps, i + 1, j);
    }
  }

  /** Dropping the first extraction of a chain leaves a chain of the rest. */
  lemma TailChain(scan: Scanner, s: string, vs: seq<real>, ps: seq<nat>) returns (qs: seq<nat>)
    requires ChainAt(scan, s, vs, ps)
    requires vs != []
    ensures ChainAt(scan, s[ps[1]..], vs[1..], qs)
  {
    var n := ps[1];
    AfterFirst(scan, s, vs, ps);
    qs := Unshift(ps, n);
    TailBounds(s, ps, qs);
    TailSteps(scan, s, vs, ps, qs);
    ShiftedSuffix(s, n, qs[|vs| - 1]);
  }

  lemma AfterFirst(scan: Scanner, s: string, vs: seq<real>, ps: seq<nat>)
    requires ChainAt(scan, s, vs, ps)
    requires vs != []
    ensures forall k :: 1 <= k < |ps| ==> ps[1] <= ps[k]
  {
    forall k | 1 <= k < |ps| ensures ps[1] <= ps[k] {
      ChainMonotone(scan, s, vs, ps, 1, k);
    }
  }

  function Unshift(ps: seq<nat>, n: nat): (qs: seq<nat>)
    requires |ps| >= 1
    requires forall k :: 1 <= k < |ps| ==> n <= ps[k]
    ensures |qs| == |ps| - 1
    ensures forall k :: 0 <= k < |qs| ==> qs[k] + n == ps[k + 1]
  {
    seq(|ps| - 1, k requires 0 <= k < |ps| - 1 => ps[k + 1] - n)
  }

  lemma TailBounds(s: string, ps: seq<nat>, qs: seq<nat>)
    requires |ps| >= 2 && InBounds(s, ps)
    requires |qs| == |ps| - 1 && forall k :: 0 <= k < |qs| ==> qs[k] + ps[1] == ps[k + 1]
    ensures InBounds(s[ps[1]..], qs)
  {
    forall k | 0 <= k < |qs| ensures qs[k] <= |s[ps[1]..]| {
      assert ps[k + 1] <= |s|;
    }
  }

  lemma TailSteps(scan: Scanner, s: string, vs: seq<real>, ps: seq<nat>, qs: seq<nat>)
    requires |ps| == |vs| + 1 && InBounds(s, ps) && Steps(scan, s, vs, ps)
    requires vs != []
    requires |qs| == |vs| && forall k :: 0 <= k < |qs| ==> qs[k] + ps[1] == ps[k + 1]
    requires InBounds(s[ps[1]..], qs)
    ensures Steps(scan, s[ps[1]..], vs[1..], qs)
  {
    var n := ps[1];
    var tail := vs[1..];
    forall k | 0 <= k < |tail|
      ensures qs[k] < qs[k + 1]
      ensures scan(s[n..][qs[k]..]) == Some(Scanned(tail[k], qs[k + 1] - qs[k]))
    {
      assert ps[k + 1] < ps[k + 2];
      ShiftedSuffix(s, n, qs[k]);
    }
  }

  lemma {:induction false} ChainDetermines(scan: Scanner, s: string, vs: seq<real>, ps: seq<nat>)
    requires ChainAt(scan, s, vs, ps)
    ensures vs == ScanAll(scan, s)
    decreases |vs|
  {
    assert s[ps[0]..] == s;
    if vs != [] {
      assert scan(s) == Some(Scanned(vs[0], ps[1]));
      var qs := TailChain(scan, s, vs, ps);
      ChainDetermines(scan, s[ps[1]..], vs[1..], qs);
    }
  }
}
