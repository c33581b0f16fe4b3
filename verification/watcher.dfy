/** The "amazon s3 in" node: a baseline listing, then one diff per tick
    (timer or inbound message) against the stored key list. */
module Watcher {
  import opened Listing
  import opened Diff

  /** The node's configuration: the bucket it watches and its key pattern
      (`n.filepattern || ""`, so "" means no pattern). */
  datatype Config = Config(bucket: string, pattern: string)

  /** What a `listObjects` call delivers: the listing, or an error. */
  datatype ListResult = Listed(contents: seq<Entry>) | Failed

  /** `Inert`: no input handler and no interval are installed (missing SDK
      credentials, or the baseline listing failed). `Watching`: the handler
      is installed and `state` holds the keys of the last filtered listing. */
  datatype Watcher = Inert | Watching(state: seq<string>)

  /** The result of one tick: the next watcher and the changes it reports. */
  datatype TickResult = TickResult(next: Watcher, changes: Changes)

  /** Every stored key passes the configured pattern. */
  predicate StateMatches(cfg: Config, matches: (string, string) -> bool, w: Watcher)
  {
    w.Watching? && cfg.pattern != "" ==> forall k :: k in w.state ==> matches(k, cfg.pattern)
  }

  /** The filtered keys of a successful listing. */
  function SnapshotKeys(cfg: Config, matches: (string, string) -> bool, contents: seq<Entry>): (ks: seq<string>)
    ensures cfg.pattern == "" ==> ks == Keys(contents)
    ensures Elements(ks) == KeySet(FilterContents(contents, cfg.pattern, matches))
    ensures cfg.pattern != "" ==> forall k :: k in ks ==> matches(k, cfg.pattern)
  {
    ElementsOfKeys(FilterContents(contents, cfg.pattern, matches));
    Keys(FilterContents(contents, cfg.pattern, matches))
  }

  /** Node construction: without an SDK the node stays inert; otherwise the
      baseline listing either fails (inert) or installs its filtered keys as
      the state. The baseline emits nothing. */
  function Start(cfg: Config, matches: (string, string) -> bool, sdkAvailable: bool, baseline: ListResult): (w: Watcher)
    ensures w.Watching? <==> sdkAvailable && baseline.Listed?
    ensures w.Watching? ==> Elements(w.state) == KeySet(FilterContents(baseline.contents, cfg.pattern, matches))
    ensures StateMatches(cfg, matches, w)
  {
    if !sdkAvailable then Inert
    else match baseline
      case Failed => Inert
      case Listed(contents) => Watching(SnapshotKeys(cfg, matches, contents))
  }

  /** One tick of the input handler. An inert node has no handler; a failed
      listing reports nothing and keeps the state; a successful one is
      diffed against the state, which is then replaced by the new keys. */
  function Tick(cfg: Config, matches: (string, string) -> bool, w: Watcher, r: ListResult): (t: TickResult)
    ensures (w.Inert? || r.Failed?) ==> t.next == w && t.changes == Changes([], {})
    ensures t.next.Watching? <==> w.Watching?
    ensures w.Watching? && r.Listed? ==>
              Elements(t.next.state) == KeySet(FilterContents(r.contents, cfg.pattern, matches))
    ensures StateMatches(cfg, matches, w) ==> StateMatches(cfg, matches, t.next)
    ensures w.Watching? ==> t.changes.deleted <= Elements(w.state)
  {
    match w
    case Inert => TickResult(Inert, Changes([], {}))
    case Watching(state) =>
      match r
      case Failed => TickResult(w, Changes([], {}))
      case Listed(contents) =>
        var filtered := FilterContents(contents, cfg.pattern, matches);
        TickResult(Watching(SnapshotKeys(cfg, matches, contents)), DiffKeys(state, filtered))
  }

  /** The input handler end to end: one tick, then its messages. The
      messages are the tick's additions in listing order, then one `delete`
      per vanished key, all tagged with the watched bucket. */
  method Check(cfg: Config, matches: (string, string) -> bool, w: Watcher, r: ListResult)
    returns (next: Watcher, events: seq<Event>)
    ensures next == Tick(cfg, matches, w, r).next
    ensures Announces(cfg.bucket, Tick(cfg, matches, w, r).changes, events)
    ensures (w.Inert? || r.Failed?) ==> events == []
    ensures forall i :: 0 <= i < |events| ==> events[i].bucket == cfg.bucket
  {
    var t := Tick(cfg, matches, w, r);
    next := t.next;
    events := Emit(cfg.bucket, t.changes);
  }

  /** With a unique-key listing, a tick adds exactly the filtered entries
      whose keys were not stored, in listing order, and deletes exactly the
      stored keys the filtered listing no longer has. */
  lemma TickReportsExactChanges(cfg: Config, matches: (string, string) -> bool, state: seq<string>, contents: seq<Entry>)
    requires UniqueKeys(contents)
    ensures var t := Tick(cfg, matches, Watching(state), Listed(contents));
            var filtered := FilterContents(contents, cfg.pattern, matches);
            && t.changes.added == NewEntries(Elements(state), filtered)
            && t.changes.deleted == Elements(state) - KeySet(filtered)
  {
    var filtered := FilterContents(contents, cfg.pattern, matches);
    if cfg.pattern != "" {
      KeepMatchingUnique(contents, cfg.pattern, matches);
    }
    ScanIsReference(Elements(state), filtered);
  }

  /** Ticking twice on the same unique-key listing: the second tick reports
      nothing. */
  lemma NoDoubleReporting(cfg: Config, matches: (string, string) -> bool, w: Watcher, contents: seq<Entry>)
    requires UniqueKeys(contents)
    ensures var t1 := Tick(cfg, matches, w, Listed(contents));
            var t2 := Tick(cfg, matches, t1.next, Listed(contents));
            t2.changes == Changes([], {})
  {
    var t1 := Tick(cfg, matches, w, Listed(contents));
    if w.Watching? {
      var filtered := FilterContents(contents, cfg.pattern, matches);
      if cfg.pattern != "" {
        KeepMatchingUnique(contents, cfg.pattern, matches);
      }
      SameKeysNoChanges(t1.next.state, filtered);
    }
  }

  /** A failed tick in between does not change what the next successful
      tick reports or stores: it diffs against the pre-failure state. */
  lemma BaselineIsolation(cfg: Config, matches: (string, string) -> bool, w: Watcher, r: ListResult)
    ensures var failed := Tick(cfg, matches, w, Failed);
            Tick(cfg, matches, failed.next, r) == Tick(cfg, matches, w, r)
  {
  }

  /** Scenario: baseline `[x]`, a failed poll, then a listing `[x, y]`:
      only the last poll reports, adding `y`. */
  lemma ScenarioFailedPollThenAdd(matches: (string, string) -> bool, m: Metadata)
    ensures var cfg := Config("bucket", "");
            var w0 := Start(cfg, matches, true, Listed([Entry("x", m)]));
            var t1 := Tick(cfg, matches, w0, Failed);
            var t2 := Tick(cfg, matches, t1.next, Listed([Entry("x", m), Entry("y", m)]));
            && t1.changes == Changes([], {})
            && t2.changes == Changes([Entry("y", m)], {})
            && t2.next == Watching(["x", "y"])
  {
    var listing := [Entry("x", m), Entry("y", m)];
    assert Keys([Entry("x", m)]) == ["x"];
    assert Keys(listing) == ["x", "y"];
    assert Elements(["x"]) == {"x"};
    assert listing[1..] == [Entry("y", m)];
    assert Scan({}, [Entry("y", m)]) == Changes([Entry("y", m)], {}) by {
      assert [Entry("y", m)][1..] == [];
    }
    var cfg := Config("bucket", "");
    var w0 := Start(cfg, matches, true, Listed([Entry("x", m)]));
    assert w0 == Watching(["x"]);
    var t1 := Tick(cfg, matches, w0, Failed);
    assert t1.next == w0;
    var t2 := Tick(cfg, matches, t1.next, Listed(listing));
    assert FilterContents(listing, "", matches) == listing;
    assert t2.changes == Scan({"x"}, listing);
    assert {"x"} - {"x"} == {};
    assert t2.changes == Changes([Entry("y", m)], {});
    assert t2.next == Watching(["x", "y"]);
  }
}
