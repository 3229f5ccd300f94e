/**
 * The purchase history of a list (src/lib/store.ts:195-228): a count per
 * lower-cased product name, bumped once for every name `addItems` receives,
 * and read back as entries sorted by descending count.
 */
module History {
  import opened Text

  /** The history record: lower-cased name to the number of times it was added. */
  type Counts = map<string, nat>

  /** One entry of `getHistory`'s answer. */
  datatype Entry = Entry(name: string, count: nat)

  /** `history[k] ?? 0`. */
  function Count(h: Counts, k: string): nat {
    if k in h then h[k] else 0
  }

  /** `history[k] = (history[k] ?? 0) + 1`. */
  function Bump(h: Counts, k: string): (r: Counts)
    ensures r.Keys == h.Keys + {k}
    ensures Count(r, k) == Count(h, k) + 1
    ensures forall j :: j != k ==> Count(r, j) == Count(h, j)
  {
    h[k := Count(h, k) + 1]
  }

  /** The keys `trackItems` bumps: every name lower-cased. */
  function Lowered(names: seq<string>): (r: seq<string>)
    ensures |r| == |names| && forall i :: 0 <= i < |r| ==> r[i] == ToLower(names[i])
  {
    seq(|names|, i requires 0 <= i < |names| => ToLower(names[i]))
  }

  /** The loop of `trackItems`: one bump per name, under its lower-cased form. */
  function Track(h: Counts, names: seq<string>): Counts
    decreases |names|
  {
    if names == [] then h else Track(Bump(h, ToLower(names[0])), names[1..])
  }

  /** Every key's count grows by the number of names that lower-case to it. */
  lemma {:induction false} TrackCounts(h: Counts, names: seq<string>)
    ensures forall k :: Count(Track(h, names), k) == Count(h, k) + multiset(Lowered(names))[k]
    decreases |names|
  {
    if names != [] {
      var k0 := ToLower(names[0]);
      TrackCounts(Bump(h, k0), names[1..]);
      assert Lowered(names) == [k0] + Lowered(names[1..]);
      assert multiset(Lowered(names)) == multiset{k0} + multiset(Lowered(names[1..]));
    }
  }

  /** The keys after tracking are the old ones plus the lower-cased names. */
  lemma {:induction false} TrackKeys(h: Counts, names: seq<string>)
    ensures Track(h, names).Keys == h.Keys + set i | 0 <= i < |names| :: ToLower(names[i])
    decreases |names|
  {
    if names != [] {
      var k0 := ToLower(names[0]);
      TrackKeys(Bump(h, k0), names[1..]);
      assert (set i | 0 <= i < |names| :: ToLower(names[i]))
          == {k0} + set i | 0 <= i < |names[1..]| :: ToLower(names[1..][i]) by {
        forall i | 1 <= i < |names|
          ensures ToLower(names[i]) == ToLower(names[1..][i - 1])
        {
        }
      }
    }
  }

  /** The sum of all counts. */
  ghost function Total(h: Counts): nat
    decreases |h.Keys|
  {
    if h == map[] then 0
    else
      var k :| k in h;
      assert (h - {k}).Keys < h.Keys;
      h[k] + Total(h - {k})
  }

  /** The sum of all counts does not depend on which key is taken out first. */
  lemma {:induction false} TotalRemove(h: Counts, k: string)
    requires k in h
    ensures Total(h) == h[k] + Total(h - {k})
    decreases |h.Keys|
  {
    var j :| j in h && Total(h) == h[j] + Total(h - {j});
    if j != k {
      var hj := h - {j};
      var hk := h - {k};
      assert hj.Keys < h.Keys && hk.Keys < h.Keys;
      TotalRemove(hj, k);
      TotalRemove(hk, j);
      assert hj - {k} == hk - {j};
    }
  }

  /** One bump adds one to the sum of all counts. */
  lemma TotalBump(h: Counts, k: string)
    ensures Total(Bump(h, k)) == Total(h) + 1
  {
    var r := Bump(h, k);
    TotalRemove(r, k);
    assert r - {k} == h - {k};
    if k in h {
      TotalRemove(h, k);
    } else {
      assert h - {k} == h;
    }
  }

  /** `trackItems` adds one to the sum of all counts per name it receives. */
  lemma {:induction false} TrackTotal(h: Counts, names: seq<string>)
    ensures Total(Track(h, names)) == Total(h) + |names|
    decreases |names|
  {
    if names != [] {
      TotalBump(h, ToLower(names[0]));
      TrackTotal(Bump(h, ToLower(names[0])), names[1..]);
    }
  }

  /** Tracking two batches one after the other is tracking them together. */
  lemma {:induction false} TrackAppend(h: Counts, a: seq<string>, b: seq<string>)
    ensures Track(h, a + b) == Track(Track(h, a), b)
    decreases |a|
  {
    if a != [] {
      var h1 := Bump(h, ToLower(a[0]));
      assert (a + b)[0] == a[0] && (a + b)[1..] == a[1..] + b;
      assert Track(h, a + b) == Track(h1, a[1..] + b);
      TrackAppend(h1, a[1..], b);
    } else {
      assert a + b == b;
    }
  }

  /** Names differing only in case are counted together: tracking lower-cased names is the same. */
  lemma {:induction false} TrackIgnoresCase(h: Counts, names: seq<string>)
    ensures Track(h, Lowered(names)) == Track(h, names)
    decreases |names|
  {
    if names != [] {
      ToLowerIsLower(names[0]);
      LowerFixed(ToLower(names[0]));
      assert Lowered(names)[1..] == Lowered(names[1..]);
      TrackIgnoresCase(Bump(h, ToLower(names[0])), names[1..]);
    }
  }

  /** Some key of a non-empty history has the largest count. */
  lemma {:induction false} MaxKey(h: Counts) returns (k: string)
    requires h != map[]
    ensures k in h && forall j :: j in h ==> h[j] <= h[k]
    decreases |h.Keys|
  {
    var k0 :| k0 in h;
    var rest := h - {k0};
    assert forall j :: j in h && j != k0 ==> j in rest;
    if rest == map[] {
      k := k0;
    } else {
      assert rest.Keys < h.Keys by {
        assert k0 in h.Keys && k0 !in rest.Keys;
      }
      var k1 := MaxKey(rest);
      k := if h[k0] >= h[k1] then k0 else k1;
      forall j | j in h
        ensures h[j] <= h[k]
      {
        if j != k0 {
          assert j in rest;
        }
      }
    }
  }

  /** The names of the entries, in order. */
  function Names(e: seq<Entry>): (r: seq<string>)
    ensures |r| == |e| && forall i :: 0 <= i < |r| ==> r[i] == e[i].name
  {
    seq(|e|, i requires 0 <= i < |e| => e[i].name)
  }

  /** `e` lists every key of `h` exactly once, with its count. */
  predicate Lists(h: Counts, e: seq<Entry>) {
    && |e| == |h|
    && (forall i :: 0 <= i < |e| ==> e[i].name in h && e[i].count == h[e[i].name])
    && (forall i, j :: 0 <= i < j < |e| ==> e[i].name != e[j].name)
    && (forall k :: k in h ==> k in Names(e))
    && (forall k :: k in Names(e) ==> k in h)
  }

  /** Counts never increase along `e`. */
  predicate Descending(e: seq<Entry>) {
    forall i, j :: 0 <= i < j < |e| ==> e[i].count >= e[j].count
  }

  /**
   * Halfway through ranking `h`: `r` lists, in descending order, the keys no
   * longer in `rest`, each with a count at least that of every key left.
   */
  predicate Ranking(h: Counts, rest: Counts, r: seq<Entry>) {
    && rest.Keys <= h.Keys
    && (forall k :: k in rest ==> rest[k] == h[k])
    && (forall i :: 0 <= i < |r| ==> r[i].name in h && r[i].name !in rest && r[i].count == h[r[i].name])
    && (forall i, j :: 0 <= i < j < |r| ==> r[i].name != r[j].name)
    && (forall k :: k in h ==> k in rest || k in Names(r))
    && |r| + |rest.Keys| == |h.Keys|
    && Descending(r)
    && (forall i, k :: 0 <= i < |r| && k in rest ==> r[i].count >= rest[k])
  }

  /** Moving a key with the largest remaining count to the end of the ranking keeps it a ranking. */
  lemma RankingStep(h: Counts, rest: Counts, r: seq<Entry>, k: string)
    requires Ranking(h, rest, r)
    requires k in rest && forall j :: j in rest ==> rest[j] <= rest[k]
    ensures |(rest - {k}).Keys| < |rest.Keys|
    ensures Ranking(h, rest - {k}, r + [Entry(k, rest[k])])
  {
    var smaller := rest - {k};
    var e := Entry(k, rest[k]);
    var r' := r + [e];
    assert smaller.Keys == rest.Keys - {k};
    forall i | 0 <= i < |r'|
      ensures r'[i].name in h && r'[i].name !in smaller && r'[i].count == h[r'[i].name]
    {
      if i < |r| {
        assert r'[i] == r[i];
      }
    }
    forall i, j | 0 <= i < j < |r'|
      ensures r'[i].name != r'[j].name && r'[i].count >= r'[j].count
    {
      assert r'[i] == r[i];
      if j < |r| {
        assert r'[j] == r[j];
      }
    }
    forall i, j | 0 <= i < |r'| && j in smaller
      ensures r'[i].count >= smaller[j]
    {
      if i < |r| {
        assert r'[i] == r[i];
      }
    }
    RankingStepCovers(h, rest, r, k);
  }

  /** After the step every key of the history is still either left or listed. */
  lemma RankingStepCovers(h: Counts, rest: Counts, r: seq<Entry>, k: string)
    requires forall j :: j in h ==> j in rest || j in Names(r)
    requires k in rest
    ensures forall j :: j in h ==> j in rest - {k} || j in Names(r + [Entry(k, rest[k])])
  {
    var names := Names(r + [Entry(k, rest[k])]);
    assert names == Names(r) + [k];
  }

  /** A ranking with nothing left lists the whole history in descending order. */
  lemma RankingDone(h: Counts, r: seq<Entry>)
    requires Ranking(h, map[], r)
    ensures Lists(h, r) && Descending(r)
  {
    assert |h| == |h.Keys|;
    forall k | k in Names(r)
      ensures k in h
    {
      var i :| 0 <= i < |r| && Names(r)[i] == k;
    }
  }

  /**
   * `getHistory` on a history record: its entries ordered by count, largest
   * first. The order among equal counts is not determined here.
   */
  method Ranked(h: Counts) returns (r: seq<Entry>)
    ensures Lists(h, r)
    ensures Descending(r)
  {
    r := [];
    var rest := h;
    while rest != map[]
      invariant Ranking(h, rest, r)
      decreases |rest.Keys|
    {
      // MaxKey's contract shows that the choice below has a witness.
      var top := MaxKey(rest);
      var k :| k in rest && forall j :: j in rest ==> rest[j] <= rest[k];
      RankingStep(h, rest, r, k);
      r := r + [Entry(k, rest[k])];
      rest := rest - {k};
    }
    RankingDone(h, r);
  }

  /** The same name added three times, in any case, shows up once with count three. */
  lemma ThreeTimesMilk()
    ensures Track(map[], ["Milk", "milk", "MILK"]) == map["milk" := 3]
  {
    var names := ["Milk", "milk", "MILK"];
    assert ToLower("Milk") == "milk" && ToLower("milk") == "milk" && ToLower("MILK") == "milk";
    assert names[1..] == ["milk", "MILK"] && names[1..][1..] == ["MILK"];
  }
}
