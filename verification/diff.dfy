/** The watcher's change detection: the previous key list against a new,
    filtered listing, producing `add` and `delete` events. */
module Diff {
  import opened Listing
  import opened Paths

  /** One message the watcher sends. `Add` carries the listing entry as its
      `data`; nothing is claimed here about the `data` field of a delete. */
  datatype Event =
    | Add(bucket: string, key: string, file: string, data: Entry)
    | Delete(bucket: string, key: string, file: string)

  /** The outcome of scanning a listing: the entries that produce `add`
      events, in the order they were met, and the keys left in `seen`,
      which produce `delete` events in no particular order. */
  datatype Changes = Changes(added: seq<Entry>, deleted: set<string>)

  /** The scan loop: a key still in `seen` is removed from it and produces
      nothing; any other entry is reported as added. */
  function Scan(seen: set<string>, contents: seq<Entry>): (c: Changes)
    ensures c.deleted == seen - KeySet(contents)
    ensures forall e :: e in c.added ==> e in contents
    ensures forall e :: e in contents && e.key !in seen ==> e in c.added
  {
    if |contents| == 0 then Changes([], seen)
    else
      var e := contents[0];
      assert contents == [e] + contents[1..];
      if e.key in seen then Scan(seen - {e.key}, contents[1..])
      else
        var c := Scan(seen, contents[1..]);
        Changes([e] + c.added, c.deleted)
  }

  /** Changes between the stored key list and a new filtered listing. */
  function DiffKeys(state: seq<string>, contents: seq<Entry>): (c: Changes)
    ensures c.deleted == Elements(state) - KeySet(contents)
    ensures forall e :: e in c.added ==> e in contents
    ensures forall e :: e in contents && e.key !in state ==> e in c.added
  {
    Scan(Elements(state), contents)
  }

  /** Reference definition of the additions: the entries, in listing order,
      whose key was not known before. */
  function NewEntries(known: set<string>, contents: seq<Entry>): (r: seq<Entry>)
  {
    if |contents| == 0 then []
    else if contents[0].key in known then NewEntries(known, contents[1..])
    else [contents[0]] + NewEntries(known, contents[1..])
  }

  /** When the listing has unique keys (as S3 guarantees), the scan reports
      exactly the new entries, in listing order, and deletes exactly the
      known keys that are no longer listed. */
  lemma {:induction false} ScanIsReference(seen: set<string>, contents: seq<Entry>)
    requires UniqueKeys(contents)
    ensures Scan(seen, contents).added == NewEntries(seen, contents)
    ensures Scan(seen, contents).deleted == seen - KeySet(contents)
  {
    if |contents| > 0 {
      var e := contents[0];
      var tail := contents[1..];
      assert UniqueKeys(tail);
      assert e.key !in KeySet(tail) by {
        forall x | x in tail ensures x.key != e.key {
          var i :| 0 <= i < |tail| && tail[i] == x;
          assert contents[i + 1] == x;
        }
      }
      if e.key in seen {
        ScanIsReference(seen - {e.key}, tail);
        NewEntriesIgnoresUnlisted(seen, e.key, tail);
      } else {
        ScanIsReference(seen, tail);
      }
    }
  }

  /** Forgetting a key that is not listed does not change the additions. */
  lemma {:induction false} NewEntriesIgnoresUnlisted(known: set<string>, k: string, contents: seq<Entry>)
    requires k !in KeySet(contents)
    ensures NewEntries(known - {k}, contents) == NewEntries(known, contents)
  {
    if |contents| > 0 {
      assert contents[0] in contents;
      assert KeySet(contents[1..]) <= KeySet(contents);
      NewEntriesIgnoresUnlisted(known, k, contents[1..]);
    }
  }

  /** Each listed key absent from the previous state is added exactly once,
      and nothing else is added. */
  lemma {:induction false} NewEntriesExactlyOnce(known: set<string>, contents: seq<Entry>)
    requires UniqueKeys(contents)
    ensures UniqueKeys(NewEntries(known, contents))
    ensures forall e :: e in NewEntries(known, contents) <==> e in contents && e.key !in known
  {
    if |contents| > 0 {
      var tail := contents[1..];
      assert UniqueKeys(tail);
      NewEntriesExactlyOnce(known, tail);
      forall x | x in tail ensures x.key != contents[0].key {
        var i :| 0 <= i < |tail| && tail[i] == x;
        assert contents[i + 1] == x;
      }
      assert contents == [contents[0]] + tail;
    }
  }

  /** Diffing a key list against a listing with the same keys reports nothing. */
  lemma SameKeysNoChanges(state: seq<string>, contents: seq<Entry>)
    requires UniqueKeys(contents)
    requires Elements(state) == KeySet(contents)
    ensures DiffKeys(state, contents).added == []
    ensures DiffKeys(state, contents).deleted == {}
  {
    ScanIsReference(Elements(state), contents);
    NothingNewWhenAllKnown(Elements(state), contents);
  }

  /** A listing whose keys are all known produces no additions. */
  lemma {:induction false} NothingNewWhenAllKnown(known: set<string>, contents: seq<Entry>)
    requires KeySet(contents) <= known
    ensures NewEntries(known, contents) == []
  {
    if |contents| > 0 {
      assert contents[0] in contents;
      assert KeySet(contents[1..]) <= KeySet(contents);
      NothingNewWhenAllKnown(known, contents[1..]);
    }
  }

  /** The `add` message for a listing entry. */
  function AddEvent(bucket: string, e: Entry): (ev: Event)
    ensures ev.Add? && ev.bucket == bucket && ev.key == e.key && ev.data == e
    ensures |ev.file| <= |e.key| && ev.file == e.key[|e.key| - |ev.file|..]
    ensures forall j :: 0 <= j < |ev.file| ==> ev.file[j] != '/'
    ensures |ev.file| == |e.key| || e.key[|e.key| - |ev.file| - 1] == '/'
  {
    Add(bucket, e.key, Basename(e.key), e)
  }

  /** The `delete` message for a key. */
  function DeleteEvent(bucket: string, k: string): (ev: Event)
    ensures ev.Delete? && ev.bucket == bucket && ev.key == k
    ensures |ev.file| <= |k| && ev.file == k[|k| - |ev.file|..]
    ensures forall j :: 0 <= j < |ev.file| ==> ev.file[j] != '/'
    ensures |ev.file| == |k| || k[|k| - |ev.file| - 1] == '/'
  {
    Delete(bucket, k, Basename(k))
  }

  /** `events` sends each key of `sent` exactly once, as its `delete`
      message, and nothing else. */
  predicate SentOnce(bucket: string, sent: set<string>, events: seq<Event>)
  {
    && (forall i :: 0 <= i < |events| ==> events[i].key in sent && events[i] == DeleteEvent(bucket, events[i].key))
    && (forall k :: k in sent ==> DeleteEvent(bucket, k) in events)
    && (forall i, j :: 0 <= i < j < |events| ==> events[i].key != events[j].key)
  }

  /** Sending one more, not yet sent, key keeps every key sent exactly once. */
  lemma SendAnother(bucket: string, sent: set<string>, events: seq<Event>, k: string)
    requires SentOnce(bucket, sent, events) && k !in sent
    ensures SentOnce(bucket, sent + {k}, events + [DeleteEvent(bucket, k)])
  {
    var d := DeleteEvent(bucket, k);
    var events' := events + [d];
    assert forall i :: 0 <= i < |events| ==> events'[i] == events[i];
    assert events'[|events|] == d && d.key == k;
    forall i | 0 <= i < |events'|
      ensures events'[i].key in sent + {k} && events'[i] == DeleteEvent(bucket, events'[i].key)
    {
    }
    forall k' | k' in sent + {k} ensures DeleteEvent(bucket, k') in events' {
      if k' != k {
        assert DeleteEvent(bucket, k') in events;
      }
    }
    forall i, j | 0 <= i < j < |events'| ensures events'[i].key != events'[j].key {
      if j == |events| {
        assert events'[i].key in sent;
      }
    }
  }

  /** Taking `k` out of the keys still to send adds it to the keys sent. */
  lemma TakeOne(all: set<string>, left: set<string>, k: string)
    requires k in left && left <= all
    ensures all - (left - {k}) == (all - left) + {k}
  {
  }

  /** Sends the keys left in `seen` as deletions, each exactly once, in an
      order the model leaves open. */
  method EmitDeletes(bucket: string, deleted: set<string>) returns (events: seq<Event>)
    ensures |events| == |deleted|
    ensures forall i :: 0 <= i < |events| ==> events[i].key in deleted && events[i] == DeleteEvent(bucket, events[i].key)
    ensures forall k :: k in deleted ==> DeleteEvent(bucket, k) in events
    ensures forall i, j :: 0 <= i < j < |events| ==> events[i].key != events[j].key
  {
    events := [];
    var left := deleted;
    while left != {}
      invariant left <= deleted
      invariant |events| + |left| == |deleted|
      invariant SentOnce(bucket, deleted - left, events)
      decreases left
    {
      var k :| k in left;
      SendAnother(bucket, deleted - left, events, k);
      TakeOne(deleted, left, k);
      events := events + [DeleteEvent(bucket, k)];
      left := left - {k};
    }
    assert deleted - left == deleted;
  }

  /** `events` announces `c`: one `add` per added entry, in order, followed
      by exactly one `delete` per deleted key, and nothing else. */
  predicate Announces(bucket: string, c: Changes, events: seq<Event>)
  {
    && |events| == |c.added| + |c.deleted|
    && (forall i :: 0 <= i < |c.added| ==> events[i] == AddEvent(bucket, c.added[i]))
    && (forall i :: |c.added| <= i < |events| ==> events[i].key in c.deleted && events[i] == DeleteEvent(bucket, events[i].key))
    && (forall k :: k in c.deleted ==> DeleteEvent(bucket, k) in events[|c.added|..])
    && (forall i, j :: |c.added| <= i < j < |events| ==> events[i].key != events[j].key)
  }

  /** Sends the scan's outcome: every addition in listing order, then every
      remaining key once as a deletion. */
  method Emit(bucket: string, c: Changes) returns (events: seq<Event>)
    ensures Announces(bucket, c, events)
  {
    var adds := seq(|c.added|, i requires 0 <= i < |c.added| => AddEvent(bucket, c.added[i]));
    var deletes := EmitDeletes(bucket, c.deleted);
    events := adds + deletes;
    assert events[|c.added|..] == deletes;
  }

  /** Scenario: previous `{a.txt, b.txt}`, listing `[b.txt, c.txt]`:
      `c.txt` is added and `a.txt` deleted. */
  lemma ScenarioAddAndDelete(m: Metadata)
    ensures DiffKeys(["a.txt", "b.txt"], [Entry("b.txt", m), Entry("c.txt", m)])
         == Changes([Entry("c.txt", m)], {"a.txt"})
  {
    var contents := [Entry("b.txt", m), Entry("c.txt", m)];
    assert contents[1..] == [Entry("c.txt", m)];
    assert Elements(["a.txt", "b.txt"]) == {"a.txt", "b.txt"};
    assert {"a.txt", "b.txt"} - {"b.txt"} == {"a.txt"};
    assert Scan({"a.txt"}, [Entry("c.txt", m)]) == Changes([Entry("c.txt", m)], {"a.txt"}) by {
      assert "c.txt" != "a.txt";
      assert [Entry("c.txt", m)][1..] == [];
    }
  }
}
