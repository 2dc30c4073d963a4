/** Browser autosave and the lazily cached process signals of one essay version
(`save_writing_snapshot`, `get_writing_snapshots`, `get_process_signals`).

Autosaves hold the row lock, so each is one step. A signals request is two steps: it reads the
version without a lock, and later commits the signals it computed from that reading.
 */
module Snapshots {
  import opened Outcomes
  import Html
  import Text
  import opened Timeline
  import TimelineEntries

  /** The library tables the stored text depends on. */
  datatype Library = Library(entities: Html.Entities, nfc: string -> string, other: char -> bool)

  datatype Snapshot = Snapshot(number: nat, ts: int, words: nat, html: string)

  /** The `process_signals` column; `Unusable` is any value the validation rejects. */
  datatype Signals = NoSignals | Unusable | Cached(count: int, analysis: Analysis)

  /** `snapshots` is None for an essay that was uploaded as a file. */
  datatype Version = Version(snapshots: Option<seq<Snapshot>>, signals: Signals, content: string, words: nat)

  datatype SaveError = NotBrowserComposed

  datatype SnapshotItem = SnapshotItem(number: nat, ts: int, words: nat)

  function ListOf(v: Version): seq<Snapshot> {
    if v.snapshots.Some? then v.snapshots.value else []
  }

  function RawOf(snaps: seq<Snapshot>): (raw: seq<RawSnapshot>)
    ensures |raw| == |snaps|
  {
    seq(|snaps|, i requires 0 <= i < |snaps| =>
      RawSnapshot(Some(snaps[i].number as int), Some(snaps[i].ts), Some(snaps[i].words as int)))
  }

  /** A fresh analysis of a list of snapshots. */
  function Fresh(snaps: seq<Snapshot>): Analysis {
    Analyze(RawOf(snaps), DEFAULTS)
  }

  function MakeSnapshot(number: nat, events: seq<Html.Event>, ts: int, lib: Library): Snapshot {
    var html := Html.Sanitized(events);
    Snapshot(number, ts, Text.CountWords(Html.StripHtmlTags(html, lib.entities, lib.nfc, lib.other)), html)
  }

  function Save(v: Version, events: seq<Html.Event>, ts: int, lib: Library): Result<Version, SaveError> {
    if v.snapshots.None? then Err(NotBrowserComposed)
    else
      var snap := MakeSnapshot(|v.snapshots.value| + 1, events, ts, lib);
      var text := Html.StripHtmlTags(snap.html, lib.entities, lib.nfc, lib.other);
      Ok(v.(snapshots := Some(v.snapshots.value + [snap]), content := text, words := snap.words))
  }

  predicate NeedsCompute(signals: Signals, current: nat) {
    !signals.Cached? || signals.count != current
  }

  // ---------------------------------------------------------------------------
  // The row
  // ---------------------------------------------------------------------------

  class VersionRow {
    const lib: Library
    var snapshots: Option<seq<Snapshot>>
    var signals: Signals
    var content: string
    var words: nat

    ghost function View(): Version
      reads this
    {
      Version(snapshots, signals, content, words)
    }

    /** An empty version for in-browser composition. */
    constructor Compose(lib: Library)
      ensures this.lib == lib && View() == Version(Some([]), NoSignals, "", 0)
      ensures Consistent(View(), lib)
    {
      this.lib := lib;
      snapshots, signals, content, words := Some([]), NoSignals, "", 0;
    }

    method SaveWritingSnapshot(events: seq<Html.Event>, ts: int) returns (r: Result<nat, SaveError>)
      modifies this
      ensures match Save(old(View()), events, ts, lib)
              case Err(e) => r == Err(e) && View() == old(View())
              case Ok(v) => View() == v && r == Ok(|ListOf(v)|)
      ensures r.Ok? <==> old(snapshots).Some?
      ensures r.Ok? ==> Stores(old(View()), View(), events, ts, lib) && r.value == |old(snapshots).value| + 1
      ensures old(Consistent(View(), lib)) ==> Consistent(View(), lib)
    {
      hide Html.Sanitized, Html.StripHtmlTags, Html.OnlyWhitelistedMarkup, Text.CountWords, Consistent, Stores;
      if snapshots.None? {
        return Err(NotBrowserComposed);
      }
      SaveStores(View(), events, ts, lib);
      var safeHtml := Html.SanitizeHtmlContent(events);
      var plain := Html.StripHtmlTags(safeHtml, lib.entities, lib.nfc, lib.other);
      var serverWords := Text.CountWords(plain);
      var number := |snapshots.value| + 1;
      ghost var before := View();
      snapshots := Some(snapshots.value + [Snapshot(number, ts, serverWords, safeHtml)]);
      content := plain;
      words := serverWords;
      SaveKeepsConsistent(before, events, ts, lib);
      r := Ok(number);
    }

    method GetWritingSnapshots() returns (r: Result<(string, nat, seq<SnapshotItem>), SaveError>)
      ensures r.Err? <==> snapshots.None?
      ensures r.Ok? ==> r.value.1 == words && r.value.2 == ItemsOf(snapshots.value)
      ensures r.Ok? ==> |r.value.2| == |snapshots.value| && forall i :: 0 <= i < |snapshots.value| ==>
                var item, snap := r.value.2[i], snapshots.value[i];
                item.number == snap.number && item.ts == snap.ts && item.words == snap.words
      ensures r.Ok? ==> r.value.0 == if snapshots.value == [] then "" else snapshots.value[|snapshots.value| - 1].html
    {
      if snapshots.None? {
        return Err(NotBrowserComposed);
      }
      var raw := snapshots.value;
      var latest := if |raw| > 0 then raw[|raw| - 1].html else "";
      r := Ok((latest, words, ItemsOf(raw)));
    }

    /** The read of a signals request: either a valid cached answer, or the list to analyse. */
    method ReadSignals() returns (hit: Option<Analysis>, snaps: seq<Snapshot>)
      ensures snaps == ListOf(View())
      ensures hit.None? <==> NeedsCompute(signals, |snaps|)
      ensures hit.Some? <==> signals.Cached? && signals.count == |snaps|
      ensures hit.Some? ==> hit.value == signals.analysis
      ensures Consistent(View(), lib) && hit.Some? ==> hit.value == Fresh(snaps)
    {
      snaps := if snapshots.Some? then snapshots.value else [];
      hit := None;
      if signals.Cached? && signals.count == |snaps| {
        hit := Some(signals.analysis);
        assert snaps[..|snaps|] == snaps;
      }
    }

    /** The commit of a signals request that read `snaps`, possibly long ago. */
    method CommitSignals(snaps: seq<Snapshot>) returns (answer: Analysis)
      modifies this`signals
      ensures answer == Fresh(snaps) && signals == Cached(|snaps|, answer)
      ensures old(Consistent(View(), lib)) && snaps <= ListOf(View()) ==> Consistent(View(), lib)
    {
      hide Consistent, Analyze;
      ghost var before := View();
      var timeline := TimelineEntries.AnalyzeWritingProcess(RawOf(snaps));
      signals := Cached(|snaps|, timeline);
      answer := timeline;
      CommitKeepsConsistent(before, snaps, lib);
    }

    /** A request with no autosave in between always answers with a fresh analysis. */
    method GetProcessSignals() returns (answer: Analysis)
      requires Consistent(View(), lib)
      modifies this`signals
      ensures answer == Fresh(ListOf(View())) && Describes(answer, ListOf(View()))
      ensures Consistent(View(), lib) && !NeedsCompute(signals, |ListOf(View())|)
    {
      FreshDescribes(ListOf(View()));
      hide Describes;
      var hit, snaps := ReadSignals();
      if hit.Some? {
        return hit.value;
      }
      answer := CommitSignals(snaps);
    }
  }

  function ItemsOf(snaps: seq<Snapshot>): (items: seq<SnapshotItem>)
    ensures |items| == |snaps|
    ensures forall i :: 0 <= i < |items| ==> items[i] == SnapshotItem(snaps[i].number, snaps[i].ts, snaps[i].words)
  {
    seq(|snaps|, i requires 0 <= i < |snaps| => SnapshotItem(snaps[i].number, snaps[i].ts, snaps[i].words))
  }

  // ---------------------------------------------------------------------------
  // What a save and an answer say
  // ---------------------------------------------------------------------------

  /** One more snapshot, numbered next and stamped with the time of the save; it holds the kept markup and the text
      of the document, and the row holds that text and its word count. */
  ghost predicate Stores(v: Version, v': Version, events: seq<Html.Event>, ts: int, lib: Library)
    requires v.snapshots.Some?
  {
    var before := v.snapshots.value;
    && v'.snapshots.Some? && |v'.snapshots.value| == |before| + 1 && before <= v'.snapshots.value
    && var snap := v'.snapshots.value[|before|];
    && snap.number == |before| + 1 && snap.ts == ts && snap.words == v'.words
    && Html.Tokens(snap.html) == Html.Expected(events)
    && v'.content == Html.StripHtmlTags(snap.html, lib.entities, lib.nfc, lib.other)
    && v'.words == Text.CountWords(v'.content)
    && v'.signals == v.signals
  }

  lemma SaveStores(v: Version, events: seq<Html.Event>, ts: int, lib: Library)
    requires v.snapshots.Some?
    ensures Save(v, events, ts, lib).Ok? && Stores(v, Save(v, events, ts, lib).value, events, ts, lib)
  {
    hide Html.Tokens, Html.Expected, Html.Sanitized, Html.StripHtmlTags, Text.CountWords;
    Html.SanitizedReadsBack(events);
  }

  /** The entries say what the snapshots say. */
  predicate SaysSame(raw: seq<RawSnapshot>, snaps: seq<Snapshot>) {
    |raw| == |snaps| && forall i :: 0 <= i < |snaps| ==>
        && raw[i].number == Some(snaps[i].number) && raw[i].ts == Some(snaps[i].ts)
        && raw[i].wordCount == Some(snaps[i].words)
  }

  /** The analysis is that of the stored entries, with the default thresholds. */
  ghost predicate Describes(answer: Analysis, snaps: seq<Snapshot>) {
    forall raw, order :: SaysSame(raw, snaps) && TimelineEntries.TimeOrder(raw, order) ==>
      TimelineEntries.Explains(raw, order, DEFAULTS, answer)
  }

  lemma FreshDescribes(snaps: seq<Snapshot>)
    ensures Describes(Fresh(snaps), snaps)
  {
    hide Analyze, TimelineEntries.Explains, TimelineEntries.TimeOrder;
    forall raw, order | SaysSame(raw, snaps) && TimelineEntries.TimeOrder(raw, order)
      ensures TimelineEntries.Ordered(raw, order)
      ensures TimelineEntries.Explains(raw, order, DEFAULTS, Fresh(snaps))
    {
      assert raw == RawOf(snaps);
      TimelineEntries.Unfold(raw, order);
      TimelineEntries.AnalysisFromEntries(raw, order, DEFAULTS);
    }
  }

  // ---------------------------------------------------------------------------
  // Consistency of a version
  // ---------------------------------------------------------------------------

  predicate Numbered(snaps: seq<Snapshot>) {
    forall i :: 0 <= i < |snaps| ==> snaps[i].number == i + 1
  }

  /** A cache of count k holds the analysis of the first k snapshots. */
  predicate CacheSound(signals: Signals, snaps: seq<Snapshot>) {
    signals.Cached? ==> 0 <= signals.count <= |snaps| && signals.analysis == Fresh(snaps[..signals.count])
  }

  /** The stored text and word count are those of the latest snapshot's HTML. */
  predicate TextOfLatest(v: Version, lib: Library) {
    v.snapshots.Some? ==>
      var snaps := v.snapshots.value;
      if snaps == [] then v.content == "" && v.words == 0
      else
        var last := snaps[|snaps| - 1];
        && v.content == Html.StripHtmlTags(last.html, lib.entities, lib.nfc, lib.other)
        && v.words == last.words == Text.CountWords(v.content)
        && Html.OnlyWhitelistedMarkup(last.html)
  }

  predicate Consistent(v: Version, lib: Library) {
    Numbered(ListOf(v)) && CacheSound(v.signals, ListOf(v)) && TextOfLatest(v, lib)
  }

  lemma SaveKeepsConsistent(v: Version, events: seq<Html.Event>, ts: int, lib: Library)
    requires v.snapshots.Some?
    ensures var v' := Save(v, events, ts, lib).value;
            (Consistent(v, lib) ==> Consistent(v', lib)) && ListOf(v) <= ListOf(v')
  {
    hide *;
    var snap := MakeSnapshot(|v.snapshots.value| + 1, events, ts, lib);
    SaveFields(v, events, ts, lib);
    var snaps, now := ListOf(v), ListOf(v) + [snap];
    assert ListOf(Save(v, events, ts, lib).value) == now;
    if Consistent(v, lib) {
      ConsistentParts(v, lib);
      ConsistentParts(Save(v, events, ts, lib).value, lib);
      NumberedSnoc(snaps, snap);
      CacheSoundSnoc(v.signals, snaps, snap);
    }
  }

  lemma SaveFields(v: Version, events: seq<Html.Event>, ts: int, lib: Library)
    requires v.snapshots.Some?
    ensures Save(v, events, ts, lib).Ok?
    ensures var v', snap := Save(v, events, ts, lib).value, MakeSnapshot(|v.snapshots.value| + 1, events, ts, lib);
      && v'.signals == v.signals && ListOf(v') == ListOf(v) + [snap] && snap.number == |ListOf(v)| + 1
      && TextOfLatest(v', lib)
  {
    Html.SanitizedIsSafe(events);
    hide Html.Sanitized, Html.StripHtmlTags, Html.OnlyWhitelistedMarkup, Text.CountWords;
  }

  lemma ConsistentParts(v: Version, lib: Library)
    ensures Consistent(v, lib) <==> Numbered(ListOf(v)) && CacheSound(v.signals, ListOf(v)) && TextOfLatest(v, lib)
  {
    hide Numbered, CacheSound, TextOfLatest;
  }

  lemma NumberedSnoc(snaps: seq<Snapshot>, snap: Snapshot)
    requires Numbered(snaps) && snap.number == |snaps| + 1
    ensures Numbered(snaps + [snap])
  {
  }

  lemma CacheSoundSnoc(signals: Signals, snaps: seq<Snapshot>, snap: Snapshot)
    requires CacheSound(signals, snaps)
    ensures CacheSound(signals, snaps + [snap])
  {
    hide Fresh;
    if signals.Cached? {
      assert (snaps + [snap])[..signals.count] == snaps[..signals.count];
    }
  }

  lemma CommitKeepsConsistent(v: Version, snaps: seq<Snapshot>, lib: Library)
    ensures Consistent(v, lib) && snaps <= ListOf(v) ==> Consistent(v.(signals := Cached(|snaps|, Fresh(snaps))), lib)
  {
    hide TextOfLatest, Fresh, Numbered;
    var v' := v.(signals := Cached(|snaps|, Fresh(snaps)));
    if Consistent(v, lib) && snaps <= ListOf(v) {
      assert ListOf(v')[..|snaps|] == snaps;
      SameText(v, v', lib);
    }
  }

  lemma SameText(v: Version, v': Version, lib: Library)
    requires v' == v.(signals := v'.signals)
    ensures TextOfLatest(v', lib) == TextOfLatest(v, lib)
  {
    hide Html.StripHtmlTags, Html.OnlyWhitelistedMarkup, Text.CountWords;
  }

  // ---------------------------------------------------------------------------
  // Every interleaving of autosaves and signals requests
  // ---------------------------------------------------------------------------

  datatype Action =
    | Autosave(events: seq<Html.Event>, ts: int)
    | Read(client: nat)
    | Commit(client: nat)

  /** One answer sent to a client, with the list its request had read. */
  datatype Answer = Answer(snaps: seq<Snapshot>, analysis: Analysis)

  /** `pending` holds what each unfinished request has read; `answers` is what was sent. */
  datatype System = System(version: Version, pending: map<nat, seq<Snapshot>>, answers: seq<Answer>)

  function Step(s: System, a: Action, lib: Library): System {
    match a
    case Autosave(events, ts) =>
      var r := Save(s.version, events, ts, lib);
      if r.Ok? then s.(version := r.value) else s
    case Read(c) =>
      var snaps := ListOf(s.version);
      if NeedsCompute(s.version.signals, |snaps|) then s.(pending := s.pending[c := snaps])
      else s.(answers := s.answers + [Answer(snaps, s.version.signals.analysis)])
    case Commit(c) =>
      if c in s.pending then
        var snaps := s.pending[c];
        s.(version := s.version.(signals := Cached(|snaps|, Fresh(snaps))),
           pending := s.pending - {c},
           answers := s.answers + [Answer(snaps, Fresh(snaps))])
      else s
  }

  function Run(s: System, actions: seq<Action>, lib: Library): System {
    if actions == [] then s else Step(Run(s, actions[..|actions| - 1], lib), actions[|actions| - 1], lib)
  }

  predicate Sound(s: System, lib: Library) {
    && Consistent(s.version, lib)
    && (forall c :: c in s.pending ==> s.pending[c] <= ListOf(s.version))
    && (forall i :: 0 <= i < |s.answers| ==>
          s.answers[i].snaps <= ListOf(s.version) && s.answers[i].analysis == Fresh(s.answers[i].snaps))
  }

  lemma StepKeepsSound(s: System, a: Action, lib: Library)
    requires Sound(s, lib)
    ensures Sound(Step(s, a, lib), lib) && ListOf(s.version) <= ListOf(Step(s, a, lib).version)
  {
    hide Fresh, TextOfLatest;
    match a {
      case Autosave(events, ts) =>
        if s.version.snapshots.Some? {
          SaveKeepsConsistent(s.version, events, ts, lib);
          PrefixesGrow(s, Save(s.version, events, ts, lib).value, lib);
        }
      case Read(c) =>
        var snaps := ListOf(s.version);
        assert snaps[..|snaps|] == snaps;
      case Commit(c) =>
        if c in s.pending {
          CommitKeepsConsistent(s.version, s.pending[c], lib);
        }
    }
  }

  lemma PrefixesGrow(s: System, v: Version, lib: Library)
    requires Sound(s, lib) && Consistent(v, lib) && ListOf(s.version) <= ListOf(v)
    ensures Sound(s.(version := v), lib)
  {
    hide Consistent, Fresh, ListOf;
  }

  /** Main result: over every run, a cache of count k holds the analysis of the first k snapshots,
      numbers are 1..n, the text is that of the latest snapshot, and every answer ever sent is a
      fresh analysis of the list its request had read. */
  lemma {:induction false} RunIsSound(s: System, actions: seq<Action>, lib: Library)
    requires Sound(s, lib)
    ensures Sound(Run(s, actions, lib), lib)
    ensures ListOf(s.version) <= ListOf(Run(s, actions, lib).version)
  {
    if actions != [] {
      RunIsSound(s, actions[..|actions| - 1], lib);
      StepKeepsSound(Run(s, actions[..|actions| - 1], lib), actions[|actions| - 1], lib);
    }
  }

  /** Main result: comparing the counts is enough. In every reachable state a cached answer whose
      count matches equals a fresh analysis of the current list. */
  lemma CountMatchIsFresh(v: Version, actions: seq<Action>, lib: Library)
    requires Consistent(v, lib)
    ensures var v' := Run(System(v, map[], []), actions, lib).version;
            !NeedsCompute(v'.signals, |ListOf(v')|) ==> v'.signals.analysis == Fresh(ListOf(v'))
  {
    RunIsSound(System(v, map[], []), actions, lib);
    var v' := Run(System(v, map[], []), actions, lib).version;
    assert ListOf(v')[..|ListOf(v')|] == ListOf(v');
  }

  /** A slow request can put an older analysis over a newer one; the count gives it away. */
  lemma SlowCommitIsDetected(s: System, c: nat, lib: Library)
    requires Sound(s, lib) && c in s.pending && s.pending[c] != ListOf(s.version)
    ensures var v := Step(s, Commit(c), lib).version; NeedsCompute(v.signals, |ListOf(v)|)
  {
    var read, now := s.pending[c], ListOf(s.version);
    assert now[..|read|] == read && now[..|now|] == now;
  }

  /** Main result: what the editor recovers is the text that is graded. In every reachable state of
      a composed essay the returned HTML strips to the stored content, and numbers run from 1. */
  lemma RecoveredEditorState(actions: seq<Action>, lib: Library)
    ensures var v := Run(System(Version(Some([]), NoSignals, "", 0), map[], []), actions, lib).version;
      && v.snapshots.Some?
      && (forall i :: 0 <= i < |ItemsOf(v.snapshots.value)| ==> ItemsOf(v.snapshots.value)[i].number == i + 1)
      && TextOfLatest(v, lib)
  {
    var s := System(Version(Some([]), NoSignals, "", 0), map[], []);
    RunIsSound(s, actions, lib);
    StaysComposed(s, actions, lib);
  }

  lemma {:induction false} StaysComposed(s: System, actions: seq<Action>, lib: Library)
    ensures Run(s, actions, lib).version.snapshots.Some? == s.version.snapshots.Some?
  {
    if actions != [] {
      StaysComposed(s, actions[..|actions| - 1], lib);
    }
  }

  /** Main result: a saved word count is the number of words the parser reported. */
  lemma SavedWordCount(v: Version, events: seq<Html.Event>, ts: int, lib: Library)
    requires v.snapshots.Some? && Html.Html5(lib.entities)
    ensures Save(v, events, ts, lib).value.words
         == Text.CountWords(Text.Filter(lib.nfc(Html.PlainText(events)), lib.other))
  {
    Html.WordCountOfSanitized(events, lib.entities, lib.nfc, lib.other);
  }
}
