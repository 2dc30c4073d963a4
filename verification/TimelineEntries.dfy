/** The composition timeline, said of the stored entries themselves: what is parsed, and the whole
analysis, in terms of the readable entries in time order.
 */
module TimelineEntries {
  import opened Outcomes
  import opened Timeline

  // ---------------------------------------------------------------------------
  // The entries in time order
  // ---------------------------------------------------------------------------

  predicate Readable(entry: RawSnapshot) {
    entry.number.Some? && entry.ts.Some? && entry.wordCount.Some?
  }

  /** The words an entry stands for: a negative count means none. */
  function WordsOf(entry: RawSnapshot): nat
    requires Readable(entry)
  {
    if entry.wordCount.value < 0 then 0 else entry.wordCount.value
  }

  /** Entry `i` is earlier than entry `j`, or taken at the same instant and listed before it. */
  predicate Before(raw: seq<RawSnapshot>, i: nat, j: nat)
    requires i < |raw| && j < |raw| && Readable(raw[i]) && Readable(raw[j])
  {
    raw[i].ts.value < raw[j].ts.value || (raw[i].ts.value == raw[j].ts.value && i < j)
  }

  predicate Ordered(raw: seq<RawSnapshot>, order: seq<nat>) {
    && (forall k :: 0 <= k < |order| ==> order[k] < |raw| && Readable(raw[order[k]]))
    && (forall j, k :: 0 <= j < k < |order| ==> Before(raw, order[j], order[k]))
  }

  /** The readable entries of the list, in time order. */
  predicate TimeOrder(raw: seq<RawSnapshot>, order: seq<nat>) {
    Ordered(raw, order) && forall i: nat :: i < |raw| && Readable(raw[i]) ==> i in order
  }

  predicate SaysSame(x: Snap, entry: RawSnapshot) {
    Readable(entry) && x.number == entry.number.value && x.ts == entry.ts.value && x.words == WordsOf(entry)
  }

  /** The snapshots say, one by one, what the readable entries say in time order. */
  predicate ReadsAs(raw: seq<RawSnapshot>, order: seq<nat>, parsed: seq<Snap>) {
    && TimeOrder(raw, order) && |parsed| == |order|
    && forall k :: 0 <= k < |order| ==> SaysSame(parsed[k], raw[order[k]])
  }

  /** `x` belongs at position `p`: after everything that is not later. */
  predicate IsPlace(sorted: seq<Snap>, x: Snap, p: nat) {
    && p <= |sorted|
    && (forall k :: 0 <= k < p ==> sorted[k].ts <= x.ts)
    && (forall k :: p <= k < |sorted| ==> sorted[k].ts > x.ts)
  }

  lemma PlaceBeforeLast(front: seq<Snap>, last: Snap, x: Snap, p: nat)
    requires IsPlace(front, x, p) && last.ts > x.ts
    ensures IsPlace(front + [last], x, p)
    ensures (front[..p] + [x] + front[p..]) + [last] == (front + [last])[..p] + [x] + (front + [last])[p..]
  {
  }

  lemma PlaceAtEnd(sorted: seq<Snap>, x: Snap)
    requires Sorted(sorted) && (sorted == [] || sorted[|sorted| - 1].ts <= x.ts)
    ensures IsPlace(sorted, x, |sorted|) && sorted + [x] == sorted[..|sorted|] + [x] + sorted[|sorted|..]
  {
  }

  lemma {:induction false} InsertPlace(sorted: seq<Snap>, x: Snap) returns (p: nat)
    requires Sorted(sorted)
    ensures IsPlace(sorted, x, p) && InsertByTime(sorted, x) == sorted[..p] + [x] + sorted[p..]
  {
    if sorted == [] || sorted[|sorted| - 1].ts <= x.ts {
      p := |sorted|;
      PlaceAtEnd(sorted, x);
    } else {
      var front, last := sorted[..|sorted| - 1], sorted[|sorted| - 1];
      p := InsertPlace(front, x);
      assert sorted == front + [last];
      hide Sorted, IsPlace;
      PlaceBeforeLast(front, last, x, p);
    }
  }

  lemma PlaceInside(sorted: seq<Snap>, x: Snap, p: nat)
    requires IsPlace(sorted, x, p)
    ensures p <= |sorted|
  {
  }

  /** One more entry, put in its place. */
  lemma OrderInsert(raw: seq<RawSnapshot>, order: seq<nat>, parsed: seq<Snap>, entry: RawSnapshot, x: Snap, p: nat)
    requires ReadsAs(raw, order, parsed) && SaysSame(x, entry) && IsPlace(parsed, x, p)
    ensures ReadsAs(raw + [entry], order[..p] + [|raw|] + order[p..], parsed[..p] + [x] + parsed[p..])
  {
    var raw', order' := raw + [entry], order[..p] + [|raw|] + order[p..];
    hide WordsOf, Before;
    InsertedSays(raw, order, parsed, entry, x, p);
    InsertedCovers(raw, order, entry, p);
    forall j, k | 0 <= j < k < |order'|
      ensures Before(raw', order'[j], order'[k])
    {
      InsertedBefore(raw, order, parsed, entry, x, p, j, k);
    }
  }

  lemma InsertedCovers(raw: seq<RawSnapshot>, order: seq<nat>, entry: RawSnapshot, p: nat)
    requires TimeOrder(raw, order) && p <= |order|
    ensures var raw', order' := raw + [entry], order[..p] + [|raw|] + order[p..];
            forall i: nat :: i < |raw'| && Readable(raw'[i]) ==> i in order'
  {
    hide Ordered;
    var raw', order' := raw + [entry], order[..p] + [|raw|] + order[p..];
    assert order == order[..p] + order[p..] && order'[p] == |raw|;
    forall i: nat | i < |raw'| && Readable(raw'[i])
      ensures i in order'
    {
      assert i < |raw| ==> raw'[i] == raw[i];
    }
  }

  lemma InsertedSays(raw: seq<RawSnapshot>, order: seq<nat>, parsed: seq<Snap>, entry: RawSnapshot, x: Snap, p: nat)
    requires ReadsAs(raw, order, parsed) && SaysSame(x, entry) && p <= |parsed|
    ensures var raw', order' := raw + [entry], order[..p] + [|raw|] + order[p..];
            var parsed' := parsed[..p] + [x] + parsed[p..];
            forall k :: 0 <= k < |order'| ==> order'[k] < |raw'| && SaysSame(parsed'[k], raw'[order'[k]])
  {
    hide SaysSame, TimeOrder, Before;
    var raw', order', parsed' := raw + [entry], order[..p] + [|raw|] + order[p..], parsed[..p] + [x] + parsed[p..];
    assert Ordered(raw, order) by { Unfold(raw, order); }
    forall k | 0 <= k < |order'|
      ensures order'[k] < |raw'| && SaysSame(parsed'[k], raw'[order'[k]])
    {
      if k < p {
        assert SaysSame(parsed[k], raw[order[k]]);
      } else if k > p {
        assert SaysSame(parsed[k - 1], raw[order[k - 1]]);
      }
    }
  }

  lemma Unfold(raw: seq<RawSnapshot>, order: seq<nat>)
    requires TimeOrder(raw, order)
    ensures Ordered(raw, order)
  {
  }

  lemma InsertedBefore(raw: seq<RawSnapshot>, order: seq<nat>, parsed: seq<Snap>, entry: RawSnapshot, x: Snap,
                       p: nat, j: nat, k: nat)
    requires ReadsAs(raw, order, parsed) && SaysSame(x, entry) && IsPlace(parsed, x, p)
    requires j < k <= |order|
    ensures var raw', order' := raw + [entry], order[..p] + [|raw|] + order[p..];
            && order'[j] < |raw'| && Readable(raw'[order'[j]]) && order'[k] < |raw'| && Readable(raw'[order'[k]])
            && Before(raw', order'[j], order'[k])
  {
    hide WordsOf;
    var g, h := if j < p then j else j - 1, if k < p then k else k - 1;
    assert j != p ==> SaysSame(parsed[g], raw[order[g]]);
    assert k != p ==> SaysSame(parsed[h], raw[order[h]]);
    assert j != p && k != p ==> Before(raw, order[g], order[h]);
  }

  lemma OrderSkip(raw: seq<RawSnapshot>, order: seq<nat>, parsed: seq<Snap>, entry: RawSnapshot)
    requires ReadsAs(raw, order, parsed) && !Readable(entry)
    ensures ReadsAs(raw + [entry], order, parsed)
  {
    var raw' := raw + [entry];
    hide WordsOf;
    assert forall k :: 0 <= k < |order| ==> raw'[order[k]] == raw[order[k]];
    forall j, k | 0 <= j < k < |order|
      ensures Before(raw', order[j], order[k])
    {
      assert Before(raw, order[j], order[k]);
    }
  }

  lemma SameLength(raw: seq<RawSnapshot>, order: seq<nat>, parsed: seq<Snap>)
    requires ReadsAs(raw, order, parsed)
    ensures |parsed| == |order|
  {
  }

  lemma ParseSays(entry: RawSnapshot)
    ensures ParseOne(entry).Some? <==> Readable(entry)
    ensures Readable(entry) ==> SaysSame(ParseOne(entry).value, entry)
  {
  }

  lemma ParsedSnoc(raw: seq<RawSnapshot>, entry: RawSnapshot)
    ensures Parsed(raw + [entry])
         == if Readable(entry) then InsertByTime(Parsed(raw), ParseOne(entry).value) else Parsed(raw)
  {
    hide InsertByTime;
    assert (raw + [entry])[..|raw|] == raw;
    var before := ParseAll(raw);
    if Readable(entry) {
      var x := ParseOne(entry).value;
      assert ParseAll(raw + [entry]) == before + [x];
      assert (before + [x])[..|before|] == before;
    } else {
      assert ParseAll(raw + [entry]) == before;
    }
  }

  lemma OrderOfOneMore(raw: seq<RawSnapshot>, order: seq<nat>, entry: RawSnapshot) returns (order': seq<nat>)
    requires ReadsAs(raw, order, Parsed(raw))
    ensures ReadsAs(raw + [entry], order', Parsed(raw + [entry]))
  {
    hide *;
    var parsed := Parsed(raw);
    ParsedSnoc(raw, entry);
    SameLength(raw, order, parsed);
    if Readable(entry) {
      ParseSays(entry);
      var x := ParseOne(entry).value;
      var p := InsertPlace(parsed, x);
      PlaceInside(parsed, x, p);
      OrderInsert(raw, order, parsed, entry, x, p);
      order' := order[..p] + [|raw|] + order[p..];
    } else {
      OrderSkip(raw, order, parsed, entry);
      order' := order;
    }
  }

  lemma {:induction false} SomeOrder(raw: seq<RawSnapshot>) returns (order: seq<nat>)
    ensures ReadsAs(raw, order, Parsed(raw))
  {
    if raw == [] {
      NothingParsed();
      order := [];
    } else {
      hide *;
      var n := |raw| - 1;
      order := SomeOrder(raw[..n]);
      order := OrderOfOneMore(raw[..n], order, raw[n]);
      assert raw == raw[..n] + [raw[n]];
    }
  }

  lemma FrontMembers(raw: seq<RawSnapshot>, a: seq<nat>, i: nat)
    requires Ordered(raw, a) && a != []
    ensures i in a[..|a| - 1] <==> i in a && i != a[|a| - 1]
  {
    var m := |a| - 1;
    assert a == a[..m] + [a[m]];
    if i in a[..m] {
      var h :| 0 <= h < m && a[h] == i;
      assert Before(raw, a[h], a[m]);
    }
  }

  lemma LastIsLatest(raw: seq<RawSnapshot>, a: seq<nat>, i: nat)
    requires Ordered(raw, a) && i in a
    ensures i < |raw| && Readable(raw[i])
    ensures i != a[|a| - 1] ==> Before(raw, i, a[|a| - 1])
  {
    var k :| 0 <= k < |a| && a[k] == i;
  }

  lemma NoMembers(a: seq<nat>)
    ensures a == [] <==> forall i: nat :: i !in a
  {
    if a != [] {
      assert a[0] in a;
    }
  }

  predicate SameMembers(a: seq<nat>, b: seq<nat>) {
    (forall i :: i in a ==> i in b) && (forall i :: i in b ==> i in a)
  }

  lemma SameLast(raw: seq<RawSnapshot>, a: seq<nat>, b: seq<nat>)
    requires Ordered(raw, a) && Ordered(raw, b) && a != [] && b != [] && SameMembers(a, b)
    ensures a[|a| - 1] == b[|b| - 1]
  {
    assert a[|a| - 1] in a && b[|b| - 1] in b;
    LastIsLatest(raw, b, a[|a| - 1]);
    LastIsLatest(raw, a, b[|b| - 1]);
  }

  lemma SameFronts(raw: seq<RawSnapshot>, a: seq<nat>, b: seq<nat>)
    requires Ordered(raw, a) && Ordered(raw, b) && a != [] && b != [] && SameMembers(a, b)
    ensures SameMembers(a[..|a| - 1], b[..|b| - 1])
  {
    SameLast(raw, a, b);
    hide Ordered;
    var p, q := a[..|a| - 1], b[..|b| - 1];
    forall i: nat
      ensures i in p <==> i in q
    {
      FrontMembers(raw, a, i);
      FrontMembers(raw, b, i);
    }
  }

  lemma {:induction false} OrdersAgree(raw: seq<RawSnapshot>, a: seq<nat>, b: seq<nat>)
    requires Ordered(raw, a) && Ordered(raw, b) && SameMembers(a, b)
    ensures a == b
    decreases |a|
  {
    NoMembers(a);
    NoMembers(b);
    if a != [] && b != [] {
      SameLast(raw, a, b);
      SameFronts(raw, a, b);
      OrdersAgree(raw, a[..|a| - 1], b[..|b| - 1]);
      assert a == a[..|a| - 1] + [a[|a| - 1]] && b == b[..|b| - 1] + [b[|b| - 1]];
    }
  }

  /** Main result: the time order is unique, and what is parsed is exactly the readable entries in that order. */
  lemma ParsedExactly(raw: seq<RawSnapshot>, order: seq<nat>)
    requires TimeOrder(raw, order)
    ensures ReadsAs(raw, order, Parsed(raw))
  {
    var found := SomeOrder(raw);
    hide Before, Parsed, WordsOf;
    forall i: nat
      ensures i in order <==> i in found
    {
      if i in order {
        var k :| 0 <= k < |order| && order[k] == i;
      }
      if i in found {
        var k :| 0 <= k < |found| && found[k] == i;
      }
    }
    OrdersAgree(raw, order, found);
  }

  // ---------------------------------------------------------------------------
  // What the analysis says of the entries
  // ---------------------------------------------------------------------------

  /** Session `k` covers the entries from place `from` up to place `to`. */
  predicate IsSessionOf(raw: seq<RawSnapshot>, order: seq<nat>, s: Session, k: nat, from: nat, to: nat)
    requires Ordered(raw, order)
  {
    && from < to <= |order|
    && var first, last := raw[order[from]], raw[order[to - 1]];
    && s.index == k && s.count == to - from
    && s.startedAt == first.ts.value && s.endedAt == last.ts.value && s.duration == s.endedAt - s.startedAt
    && s.wordsStart == WordsOf(first) && s.wordsEnd == WordsOf(last) && s.wordsAdded == s.wordsEnd - s.wordsStart
  }

  /** The sessions run from border to border, and the borders stand where the gap reaches the threshold. */
  predicate CutsSessions(raw: seq<RawSnapshot>, order: seq<nat>, gap: int, ss: seq<Session>, borders: seq<nat>)
    requires Ordered(raw, order)
  {
    && |borders| == |ss| + 1 && borders[0] == 0 && borders[|ss|] == |order|
    && (forall k :: 0 <= k < |ss| ==> IsSessionOf(raw, order, ss[k], k, borders[k], borders[k + 1]))
    && (forall j: nat :: 0 < j < |order| ==>
          (j in borders <==> raw[order[j]].ts.value - raw[order[j - 1]].ts.value >= gap))
  }

  predicate Contains(s: Session, ts: int) {
    s.startedAt <= ts <= s.endedAt
  }

  predicate IsFirstAt(ss: seq<Session>, ts: int, k: nat) {
    k < |ss| && Contains(ss[k], ts) && forall j :: 0 <= j < k ==> !Contains(ss[j], ts)
  }

  /** Enough words over the entry before, and a large enough share of the final count. */
  predicate Jumps(prev: RawSnapshot, cur: RawSnapshot, final: nat, t: Thresholds)
    requires Readable(prev) && Readable(cur) && final > 0
  {
    && WordsOf(cur) - WordsOf(prev) >= t.pasteMinWords
    && (WordsOf(cur) - WordsOf(prev)) as real / final as real >= t.pasteMinFraction
  }

  predicate Reports(e: PasteEvent, prev: RawSnapshot, cur: RawSnapshot, ss: seq<Session>)
    requires Readable(prev) && Readable(cur)
  {
    && e.number == cur.number.value && e.occurredAt == cur.ts.value
    && e.wordsBefore == WordsOf(prev) && e.wordsAfter == WordsOf(cur) && e.wordsAdded == e.wordsAfter - e.wordsBefore
    && IsFirstAt(ss, e.occurredAt, e.sessionIndex)
  }

  predicate Increasing(places: seq<nat>) {
    forall j, k :: 0 <= j < k < |places| ==> places[j] < places[k]
  }

  /** The pastes report, in order, the entries at the given places, which are all that jump. */
  predicate ListsPastes(raw: seq<RawSnapshot>, order: seq<nat>, final: nat, t: Thresholds, ss: seq<Session>,
                        es: seq<PasteEvent>, places: seq<nat>)
    requires Ordered(raw, order) && final > 0
  {
    && |places| == |es| && Increasing(places)
    && (forall i :: 0 <= i < |places| ==>
          0 < places[i] < |order| && Reports(es[i], raw[order[places[i] - 1]], raw[order[places[i]]], ss))
    && (forall k: nat :: 0 < k < |order| ==> (k in places <==> Jumps(raw[order[k - 1]], raw[order[k]], final, t)))
  }

  /** The session is short and adds a large enough share of the final count. */
  predicate Completes(s: Session, final: nat, t: Thresholds)
    requires final > 0
  {
    s.duration <= t.rapidMaxDuration && s.wordsAdded as real / final as real >= t.rapidFraction
  }

  predicate Names(e: RapidEvent, s: Session, final: nat)
    requires final > 0
  {
    && e.sessionIndex == s.index && e.duration == s.duration
    && e.wordsAtStart == s.wordsStart && e.wordsAtEnd == s.wordsEnd
    && e.fraction == s.wordsAdded as real / final as real
  }

  predicate ListsRapids(final: nat, t: Thresholds, ss: seq<Session>, es: seq<RapidEvent>, places: seq<nat>)
    requires final > 0
  {
    && |places| == |es| && Increasing(places)
    && (forall i :: 0 <= i < |places| ==> places[i] < |ss| && Names(es[i], ss[places[i]], final))
    && (forall k: nat :: k < |ss| ==> (k in places <==> Completes(ss[k], final, t)))
  }

  /** The gaps stand between the sessions, and active time and gaps make up the whole time. */
  predicate TimesAddUp(a: Analysis, first: int, last: int) {
    && |a.gaps| == |a.sessions| - 1
    && (forall k :: 0 <= k < |a.gaps| ==> a.gaps[k] == a.sessions[k + 1].startedAt - a.sessions[k].endedAt)
    && a.elapsed == last - first && a.active + Sum(a.gaps) == a.elapsed
  }

  ghost predicate ExplainsEvents(raw: seq<RawSnapshot>, order: seq<nat>, t: Thresholds, a: Analysis, final: nat)
    requires Ordered(raw, order)
  {
    && (final == 0 ==> a.pastes == [] && a.rapids == [])
    && (final > 0 ==>
          && (exists places :: ListsPastes(raw, order, final, t, a.sessions, a.pastes, places))
          && (exists places :: ListsRapids(final, t, a.sessions, a.rapids, places)))
  }

  /** The whole analysis, in terms of the entries in time order. */
  ghost predicate Explains(raw: seq<RawSnapshot>, order: seq<nat>, t: Thresholds, a: Analysis)
    requires Ordered(raw, order)
  {
    if order == [] then
      && !a.hasProcessData && a.sessions == [] && a.gaps == [] && a.pastes == [] && a.rapids == []
      && a.active == 0 && a.elapsed == 0
    else
      var first, last := raw[order[0]], raw[order[|order| - 1]];
      && a.hasProcessData
      && (exists borders :: CutsSessions(raw, order, t.gap, a.sessions, borders))
      && TimesAddUp(a, first.ts.value, last.ts.value)
      && ExplainsEvents(raw, order, t, a, WordsOf(last))
  }

  // ---------------------------------------------------------------------------
  // The borders of the segmentation
  // ---------------------------------------------------------------------------

  predicate IsPartOf(parsed: seq<Snap>, part: seq<Snap>, from: nat, to: nat) {
    from < to <= |parsed| && part == parsed[from..to]
  }

  predicate IsBorders(parsed: seq<Snap>, gap: int, parts: seq<seq<Snap>>, b: seq<nat>) {
    && |b| == |parts| + 1 && b[0] == 0 && b[|parts|] == |parsed|
    && (forall k :: 0 <= k < |parts| ==> IsPartOf(parsed, parts[k], b[k], b[k + 1]))
    && (forall j: nat :: 0 < j < |parsed| ==> (j in b <==> parsed[j].ts - parsed[j - 1].ts >= gap))
  }

  lemma BordersNewPart(front: seq<Snap>, gap: int, parts: seq<seq<Snap>>, b: seq<nat>, x: Snap)
    requires front != [] && IsBorders(front, gap, parts, b) && x.ts - Last(front).ts >= gap
    ensures IsBorders(front + [x], gap, parts + [[x]], b + [|front| + 1])
  {
    var parsed, parts', b' := front + [x], parts + [[x]], b + [|front| + 1];
    forall k | 0 <= k < |parts'|
      ensures IsPartOf(parsed, parts'[k], b'[k], b'[k + 1])
    {
      assert k < |parts| ==> IsPartOf(front, parts[k], b[k], b[k + 1]);
    }
    assert b[|parts|] in b;
    forall j: nat | 0 < j < |parsed|
      ensures j in b' <==> parsed[j].ts - parsed[j - 1].ts >= gap
    {
      assert j < |front| ==> (j in b <==> front[j].ts - front[j - 1].ts >= gap);
    }
  }

  lemma BordersExtend(front: seq<Snap>, gap: int, done: seq<seq<Snap>>, current: seq<Snap>, b: seq<nat>, x: Snap)
    requires front != [] && IsBorders(front, gap, done + [current], b) && x.ts - Last(front).ts < gap
    ensures IsBorders(front + [x], gap, done + [current + [x]], b[..|done| + 1] + [|front| + 1])
  {
    var parsed, parts, parts' := front + [x], done + [current], done + [current + [x]];
    var b' := b[..|done| + 1] + [|front| + 1];
    assert b == b[..|done| + 1] + [|front|];
    forall k | 0 <= k < |parts'|
      ensures IsPartOf(parsed, parts'[k], b'[k], b'[k + 1]) && b[k] < |front|
    {
      assert IsPartOf(front, parts[k], b[k], b[k + 1]);
    }
    assert forall k :: 0 <= k <= |done| ==> b[..|done| + 1][k] == b[k] < |front|;
    assert |front| !in b[..|done| + 1];
    forall j: nat | 0 < j < |parsed|
      ensures j in b' <==> parsed[j].ts - parsed[j - 1].ts >= gap
    {
      assert j < |front| ==> (j in b <==> front[j].ts - front[j - 1].ts >= gap);
    }
  }

  lemma BordersOfStep(front: seq<Snap>, gap: int, done: seq<seq<Snap>>, current: seq<Snap>, x: Snap, b: seq<nat>)
    returns (b': seq<nat>)
    requires front != [] && IsBorders(front, gap, done + [current], b)
    ensures x.ts - Last(front).ts >= gap ==> IsBorders(front + [x], gap, (done + [current]) + [[x]], b')
    ensures x.ts - Last(front).ts < gap ==> IsBorders(front + [x], gap, done + [current + [x]], b')
  {
    assert |b| > |done| + 1;
    hide IsBorders;
    if x.ts - Last(front).ts >= gap {
      BordersNewPart(front, gap, done + [current], b, x);
      b' := b + [|front| + 1];
    } else {
      BordersExtend(front, gap, done, current, b, x);
      b' := b[..|done| + 1] + [|front| + 1];
    }
  }

  lemma BordersStep(front: seq<Snap>, gap: int, x: Snap, b: seq<nat>) returns (b': seq<nat>)
    requires front != [] && IsBorders(front, gap, Segments(front, gap), b)
    ensures IsBorders(front + [x], gap, Segments(front + [x], gap), b')
  {
    hide Segments, IsBorders;
    var parts := Segments(front, gap);
    var done, current := parts[..|parts| - 1], parts[|parts| - 1];
    assert parts == done + [current];
    SegmentsStep(front, gap, done, current, x);
    b' := BordersOfStep(front, gap, done, current, x, b);
  }

  lemma {:induction false} SomeBorders(parsed: seq<Snap>, gap: int) returns (b: seq<nat>)
    requires parsed != []
    ensures IsBorders(parsed, gap, Segments(parsed, gap), b)
  {
    var n := |parsed| - 1;
    assert parsed == parsed[..n] + [parsed[n]];
    if n == 0 {
      b := [0, 1];
      assert parsed[0..1] == parsed;
    } else {
      hide *;
      b := SomeBorders(parsed[..n], gap);
      b := BordersStep(parsed[..n], gap, parsed[n], b);
    }
  }

  // ---------------------------------------------------------------------------
  // Sessions and events
  // ---------------------------------------------------------------------------

  lemma SessionOfPart(raw: seq<RawSnapshot>, order: seq<nat>, parsed: seq<Snap>, part: seq<Snap>, k: nat, from: nat,
                      to: nat)
    requires ReadsAs(raw, order, parsed) && Sorted(parsed) && IsPartOf(parsed, part, from, to)
    ensures IsSessionOf(raw, order, MakeSession(part, k), k, from, to)
  {
    assert SaysSame(parsed[from], raw[order[from]]) && SaysSame(parsed[to - 1], raw[order[to - 1]]);
    hide SaysSame, Before, TimeOrder;
  }

  lemma SessionsExplained(raw: seq<RawSnapshot>, order: seq<nat>, parsed: seq<Snap>, gap: int)
    returns (borders: seq<nat>)
    requires ReadsAs(raw, order, parsed) && Sorted(parsed) && parsed != []
    ensures CutsSessions(raw, order, gap, SessionsOf(Segments(parsed, gap)), borders)
  {
    borders := SomeBorders(parsed, gap);
    var parts := Segments(parsed, gap);
    var ss := SessionsOf(parts);
    hide Segments, Before, SaysSame, TimeOrder, MakeSession, IsSessionOf;
    forall k | 0 <= k < |ss|
      ensures IsSessionOf(raw, order, ss[k], k, borders[k], borders[k + 1])
    {
      assert IsPartOf(parsed, parts[k], borders[k], borders[k + 1]);
      SessionOfPart(raw, order, parsed, parts[k], k, borders[k], borders[k + 1]);
    }
    forall j: nat | 0 < j < |order|
      ensures j in borders <==> raw[order[j]].ts.value - raw[order[j - 1]].ts.value >= gap
    {
      SameTime(raw, order, parsed, j);
      SameTime(raw, order, parsed, j - 1);
    }
  }

  lemma SameTime(raw: seq<RawSnapshot>, order: seq<nat>, parsed: seq<Snap>, k: nat)
    requires ReadsAs(raw, order, parsed) && k < |order|
    ensures k < |parsed| && Readable(raw[order[k]]) && raw[order[k]].ts.value == parsed[k].ts
    ensures raw[order[k]].number.value == parsed[k].number && WordsOf(raw[order[k]]) == parsed[k].words
  {
    assert SaysSame(parsed[k], raw[order[k]]);
  }

  lemma {:induction false} FindIsFirst(ss: seq<Session>, ts: int, k: nat) returns (first: nat)
    requires k < |ss| && Contains(ss[k], ts)
    ensures IsFirstAt(ss, ts, first) && FindSessionIndex(ss, ts) == ss[first].index
  {
    if Contains(ss[0], ts) {
      first := 0;
    } else {
      var rest := ss[1..];
      var f := FindIsFirst(rest, ts, k - 1);
      first := f + 1;
      assert forall j :: 1 <= j < |ss| ==> ss[j] == rest[j - 1];
    }
  }

  lemma FoundSession(parsed: seq<Snap>, gap: int, i: nat)
    requires Sorted(parsed) && i < |parsed|
    ensures var ss := SessionsOf(Segments(parsed, gap));
            IsFirstAt(ss, parsed[i].ts, FindSessionIndex(ss, parsed[i].ts))
  {
    var parts: seq<seq<Snap>> := Segments(parsed, gap);
    var ss := SessionsOf(parts);
    SegmentsIsSegmentation(parsed, gap);
    hide Segments, Flatten, Sorted, IsFirstAt, FindSessionIndex;
    var k, j := InSomePart(parts, parsed[i]);
    SessionContains(parts, k, j);
    var first := FindIsFirst(ss, parsed[i].ts, k);
    assert first < |ss| by { FirstInside(ss, parsed[i].ts, first); }
  }

  lemma FirstInside(ss: seq<Session>, ts: int, k: nat)
    requires IsFirstAt(ss, ts, k)
    ensures k < |ss|
  {
  }

  /** The places of the pastes among the first `n` snapshots. */
  predicate PicksPastes(parsed: seq<Snap>, n: nat, final: nat, ss: seq<Session>, t: Thresholds, es: seq<PasteEvent>,
                        places: seq<nat>)
    requires n <= |parsed| && final > 0
  {
    && |places| == |es| && Increasing(places)
    && (forall i :: 0 <= i < |places| ==>
          0 < places[i] < n && es[i] == PasteAt(parsed[places[i] - 1], parsed[places[i]], ss))
    && (forall k: nat :: 0 < k < n ==> (k in places <==> IsPaste(parsed[k].words - parsed[k - 1].words, final, t)))
  }

  lemma PicksOneMore(parsed: seq<Snap>, n: nat, final: nat, ss: seq<Session>, t: Thresholds, es: seq<PasteEvent>,
                     places: seq<nat>)
    requires 1 < n <= |parsed| && final > 0 && PicksPastes(parsed, n - 1, final, ss, t, es, places)
    ensures var event := PasteAt(parsed[n - 2], parsed[n - 1], ss);
            if IsPaste(parsed[n - 1].words - parsed[n - 2].words, final, t)
            then PicksPastes(parsed, n, final, ss, t, es + [event], places + [n - 1])
            else PicksPastes(parsed, n, final, ss, t, es, places)
  {
    hide IsPaste, PasteAt;
    assert n - 1 !in places;
  }

  lemma {:induction false} SomePastes(parsed: seq<Snap>, n: nat, final: nat, ss: seq<Session>, t: Thresholds)
    returns (places: seq<nat>)
    requires n <= |parsed| && final > 0
    ensures PicksPastes(parsed, n, final, ss, t, PastesUpTo(parsed, n, final, ss, t), places)
  {
    if n <= 1 {
      places := [];
    } else {
      places := SomePastes(parsed, n - 1, final, ss, t);
      var es := PastesUpTo(parsed, n - 1, final, ss, t);
      PicksOneMore(parsed, n, final, ss, t, es, places);
      hide IsPaste, PicksPastes, FindSessionIndex;
      if IsPaste(parsed[n - 1].words - parsed[n - 2].words, final, t) {
        places := places + [n - 1];
      } else {
        assert PastesUpTo(parsed, n, final, ss, t) == es + [] == es;
      }
    }
  }

  lemma {:induction false} SomeRapids(ss: seq<Session>, n: nat, final: nat, t: Thresholds) returns (places: seq<nat>)
    requires n <= |ss| && final > 0
    ensures ListsRapids(final, t, ss[..n], RapidsUpTo(ss, n, final, t), places)
  {
    if n == 0 {
      places := [];
    } else {
      places := SomeRapids(ss, n - 1, final, t);
      assert n - 1 !in places;
      assert Completes(ss[n - 1], final, t) <==> IsRapid(ss[n - 1], final, t);
      assert Names(RapidOf(ss[n - 1], final), ss[n - 1], final);
      hide Completes, IsRapid, Names, RapidOf;
      if Completes(ss[n - 1], final, t) {
        places := places + [n - 1];
      }
    }
  }

  lemma PasteExplained(raw: seq<RawSnapshot>, order: seq<nat>, parsed: seq<Snap>, ss: seq<Session>, k: nat, final: nat,
                       t: Thresholds)
    requires ReadsAs(raw, order, parsed) && 0 < k < |order| && final > 0
    ensures k < |parsed| && Readable(raw[order[k - 1]]) && Readable(raw[order[k]])
    ensures Jumps(raw[order[k - 1]], raw[order[k]], final, t) <==>
            IsPaste(parsed[k].words - parsed[k - 1].words, final, t)
    ensures IsFirstAt(ss, parsed[k].ts, FindSessionIndex(ss, parsed[k].ts)) ==>
              Reports(PasteAt(parsed[k - 1], parsed[k], ss), raw[order[k - 1]], raw[order[k]], ss)
  {
    SameTime(raw, order, parsed, k);
    SameTime(raw, order, parsed, k - 1);
    hide IsFirstAt, FindSessionIndex, SaysSame, Before, TimeOrder, WordsOf, ReadsAs;
  }

  lemma PastesExplained(raw: seq<RawSnapshot>, order: seq<nat>, parsed: seq<Snap>, final: nat, t: Thresholds,
                        ss: seq<Session>, es: seq<PasteEvent>, places: seq<nat>)
    requires ReadsAs(raw, order, parsed) && final > 0 && PicksPastes(parsed, |parsed|, final, ss, t, es, places)
    requires forall k :: 0 <= k < |parsed| ==> IsFirstAt(ss, parsed[k].ts, FindSessionIndex(ss, parsed[k].ts))
    ensures ListsPastes(raw, order, final, t, ss, es, places)
  {
    SameLength(raw, order, parsed);
    Unfold(raw, order);
    hide Jumps, Reports, IsPaste, PasteAt, IsFirstAt, FindSessionIndex, Before, ReadsAs, Readable;
    forall i | 0 <= i < |places|
      ensures 0 < places[i] < |order| && Reports(es[i], raw[order[places[i] - 1]], raw[order[places[i]]], ss)
    {
      PasteExplained(raw, order, parsed, ss, places[i], final, t);
    }
    forall k: nat | 0 < k < |order|
      ensures k in places <==> Jumps(raw[order[k - 1]], raw[order[k]], final, t)
    {
      PasteExplained(raw, order, parsed, ss, k, final, t);
    }
  }

  lemma SomeListedPastes(raw: seq<RawSnapshot>, order: seq<nat>, parsed: seq<Snap>, final: nat, t: Thresholds)
    returns (places: seq<nat>)
    requires ReadsAs(raw, order, parsed) && Sorted(parsed) && final > 0
    ensures var ss := SessionsOf(Segments(parsed, t.gap));
            ListsPastes(raw, order, final, t, ss, PastesUpTo(parsed, |parsed|, final, ss, t), places)
  {
    hide *;
    var ss := SessionsOf(Segments(parsed, t.gap));
    places := SomePastes(parsed, |parsed|, final, ss, t);
    forall k | 0 <= k < |parsed|
      ensures IsFirstAt(ss, parsed[k].ts, FindSessionIndex(ss, parsed[k].ts))
    {
      FoundSession(parsed, t.gap, k);
    }
    PastesExplained(raw, order, parsed, final, t, ss, PastesUpTo(parsed, |parsed|, final, ss, t), places);
  }

  lemma GapsExplained(ss: seq<Session>, gap: int)
    requires GapsAtLeast(ss, gap) && ss != []
    ensures |GapsOf(ss)| == |ss| - 1
    ensures forall k :: 0 <= k < |GapsOf(ss)| ==> GapsOf(ss)[k] == ss[k + 1].startedAt - ss[k].endedAt
  {
  }

  lemma AccountedFacts(a: Analysis, parsed: seq<Snap>, gap: int)
    requires Accounted(a, parsed, gap) && parsed != []
    ensures a.gaps == GapsOf(a.sessions) && GapsAtLeast(a.sessions, gap)
    ensures a.elapsed == Last(parsed).ts - parsed[0].ts && a.active + Sum(a.gaps) == a.elapsed
  {
    hide Sum, Counts, GapsOf, TimeOrdered, GapsAtLeast;
  }

  lemma AccountedAddsUp(a: Analysis, parsed: seq<Snap>, gap: int)
    requires Accounted(a, parsed, gap) && parsed != [] && a.sessions != []
    ensures TimesAddUp(a, parsed[0].ts, Last(parsed).ts)
  {
    AccountedFacts(a, parsed, gap);
    GapsExplained(a.sessions, gap);
    hide Sum, GapsOf, GapsAtLeast, Accounted;
  }

  lemma TimesExplained(parsed: seq<Snap>, t: Thresholds)
    requires Sorted(parsed) && parsed != []
    ensures TimesAddUp(AnalyzeParsed(parsed, t), parsed[0].ts, Last(parsed).ts)
  {
    hide *;
    AnalysisAccounts(parsed, t);
    AnalysisParts(parsed, t);
    AccountedAddsUp(AnalyzeParsed(parsed, t), parsed, t.gap);
  }

  lemma AnalysisParts(parsed: seq<Snap>, t: Thresholds)
    requires parsed != []
    ensures var a, ss, final := AnalyzeParsed(parsed, t), SessionsOf(Segments(parsed, t.gap)), Last(parsed).words;
            && a.hasProcessData && a.sessions == ss
            && a.pastes == (if final > 0 then PastesUpTo(parsed, |parsed|, final, ss, t) else [])
            && a.rapids == RapidsUpTo(ss, |ss|, final, t)
  {
    hide Segments, SessionsOf, GapsOf, Durations, Sum, PastesUpTo, RapidsUpTo;
    var ss := SessionsOf(Segments(parsed, t.gap));
  }

  lemma EventsFromEntries(raw: seq<RawSnapshot>, order: seq<nat>, parsed: seq<Snap>, t: Thresholds)
    requires ReadsAs(raw, order, parsed) && Sorted(parsed) && parsed != [] && Ordered(raw, order)
    ensures ExplainsEvents(raw, order, t, AnalyzeParsed(parsed, t), Last(parsed).words)
  {
    hide AnalyzeParsed, Segments, SessionsOf, PastesUpTo, RapidsUpTo, Sorted;
    hide ReadsAs, Ordered, ListsPastes, ListsRapids;
    AnalysisParts(parsed, t);
    var final, ss := Last(parsed).words, SessionsOf(Segments(parsed, t.gap));
    if final > 0 {
      var pastes := SomeListedPastes(raw, order, parsed, final, t);
      var rapids := SomeRapids(ss, |ss|, final, t);
      assert ss[..|ss|] == ss;
    } else {
      NoRapidsWithoutWords(ss, |ss|, t);
    }
  }

  /** Main result: sessions, times, pastes and rapid completions, all from the entries in time order. */
  lemma AnalysisFromEntries(raw: seq<RawSnapshot>, order: seq<nat>, t: Thresholds)
    requires TimeOrder(raw, order)
    ensures Explains(raw, order, t, Analyze(raw, t))
  {
    ParsedExactly(raw, order);
    var parsed := Parsed(raw);
    SameLength(raw, order, parsed);
    hide Parsed, AnalyzeParsed, SessionsOf, Sorted, Before, ReadsAs, CutsSessions, ExplainsEvents, TimesAddUp;
    if order == [] {
      assert AnalyzeParsed([], t) == NO_DATA by { NothingAnalyzed(t); }
    } else {
      SameTime(raw, order, parsed, 0);
      SameTime(raw, order, parsed, |order| - 1);
      AnalysisParts(parsed, t);
      TimesExplained(parsed, t);
      EventsFromEntries(raw, order, parsed, t);
      var borders := SessionsExplained(raw, order, parsed, t.gap);
    }
  }

  lemma NothingAnalyzed(t: Thresholds)
    ensures AnalyzeParsed([], t) == NO_DATA
  {
  }

  // ---------------------------------------------------------------------------
  // The operations
  // ---------------------------------------------------------------------------

  method ParseSnapshots(raw: seq<RawSnapshot>) returns (parsed: seq<Snap>)
    ensures parsed == Parsed(raw)
    ensures forall order :: TimeOrder(raw, order) ==> ReadsAs(raw, order, parsed)
  {
    parsed := [];
    for i := 0 to |raw|
      invariant parsed == ParseAll(raw[..i])
    {
      assert raw[..i + 1][..i] == raw[..i];
      var snap := ParseOne(raw[i]);
      if snap.Some? {
        parsed := parsed + [snap.value];
      }
    }
    assert raw[..|raw|] == raw;
    parsed := SortByTime(parsed);
    forall order | TimeOrder(raw, order)
      ensures ReadsAs(raw, order, parsed)
    {
      ParsedExactly(raw, order);
    }
  }

  method AnalyzeWritingProcess(raw: seq<RawSnapshot>, t: Thresholds := DEFAULTS) returns (a: Analysis)
    ensures a == Analyze(raw, t)
    ensures forall order :: TimeOrder(raw, order) ==> Explains(raw, order, t, a)
    ensures a.hasProcessData ==> IsSegmentation(Parsed(raw), t.gap, Segments(Parsed(raw), t.gap))
  {
    hide Segments, IsSegmentation, Flatten, SortByTime, Sum, SessionsOf, PastesUpTo, RapidsUpTo;
    forall order | TimeOrder(raw, order)
      ensures Explains(raw, order, t, Analyze(raw, t))
    {
      AnalysisFromEntries(raw, order, t);
    }
    hide TimeOrder, Explains;
    if |raw| == 0 {
      NothingParsed();
      return NO_DATA;
    }
    var parsed := ParseSnapshots(raw);
    SegmentsIsSegmentation(parsed, t.gap);
    if |parsed| == 0 {
      return NO_DATA;
    }
    hide Parsed;
    a := AnalyzeSnapshots(parsed, t);
  }
}
