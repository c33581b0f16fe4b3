/** Bucket listings and the watcher's key-pattern filter (`filterContents`). */
module Listing {

  /** Everything S3 reports about one object besides its key (ETag, Size,
      LastModified, ...). The watcher never looks inside it. */
  type Metadata = map<string, string>

  /** One element of `data.Contents` in a `listObjects` reply. */
  datatype Entry = Entry(key: string, meta: Metadata)

  /** `contents.map(e => e.Key)`: the keys of a listing, in listing order. */
  function Keys(contents: seq<Entry>): (ks: seq<string>)
    ensures |ks| == |contents|
    ensures forall i :: 0 <= i < |contents| ==> ks[i] == contents[i].key
  {
    if |contents| == 0 then [] else [contents[0].key] + Keys(contents[1..])
  }

  /** The keys of a listing as a set. */
  function KeySet(contents: seq<Entry>): set<string>
  {
    set e | e in contents :: e.key
  }

  /** The elements of a key list as a set. */
  function Elements(ks: seq<string>): set<string>
  {
    set k | k in ks
  }

  /** The key list of a listing holds exactly its keys. */
  lemma ElementsOfKeys(contents: seq<Entry>)
    ensures Elements(Keys(contents)) == KeySet(contents)
  {
  }

  /** S3 never lists one key twice. */
  predicate UniqueKeys(contents: seq<Entry>)
  {
    forall i, j :: 0 <= i < j < |contents| ==> contents[i].key != contents[j].key
  }

  /** `contents.filter(e => minimatch(e.Key, pattern))`. The glob matcher is an
      external library, so it is a parameter of the model. */
  function KeepMatching(contents: seq<Entry>, pattern: string, matches: (string, string) -> bool): (kept: seq<Entry>)
    ensures |kept| <= |contents|
    ensures forall e :: e in kept <==> e in contents && matches(e.key, pattern)
    ensures forall e :: multiset(kept)[e] == if matches(e.key, pattern) then multiset(contents)[e] else 0
  {
    if |contents| == 0 then []
    else
      var rest := KeepMatching(contents[1..], pattern, matches);
      assert contents == [contents[0]] + contents[1..];
      if matches(contents[0].key, pattern) then [contents[0]] + rest else rest
  }

  /** `filterContents`: the listing unchanged when no pattern is configured
      (the node stores `n.filepattern || ""`), otherwise the matching entries. */
  function FilterContents(contents: seq<Entry>, pattern: string, matches: (string, string) -> bool): (r: seq<Entry>)
    ensures pattern == "" ==> r == contents
    ensures pattern != "" ==> forall e :: e in r <==> e in contents && matches(e.key, pattern)
    ensures pattern != "" ==> forall e :: multiset(r)[e] == if matches(e.key, pattern) then multiset(contents)[e] else 0
  {
    if pattern != "" then KeepMatching(contents, pattern, matches) else contents
  }

  /** Filtering keeps the listing order: filtering a concatenation is the
      concatenation of the filtered parts. */
  lemma {:induction false} KeepMatchingAppend(a: seq<Entry>, b: seq<Entry>, pattern: string, matches: (string, string) -> bool)
    ensures KeepMatching(a + b, pattern, matches) == KeepMatching(a, pattern, matches) + KeepMatching(b, pattern, matches)
  {
    if |a| == 0 {
      assert a + b == b;
    } else {
      assert (a + b)[1..] == a[1..] + b;
      KeepMatchingAppend(a[1..], b, pattern, matches);
    }
  }

  /** A filtered listing whose source had unique keys has unique keys. */
  lemma {:induction false} KeepMatchingUnique(contents: seq<Entry>, pattern: string, matches: (string, string) -> bool)
    requires UniqueKeys(contents)
    ensures UniqueKeys(KeepMatching(contents, pattern, matches))
  {
    if |contents| > 0 {
      var rest := KeepMatching(contents[1..], pattern, matches);
      KeepMatchingUnique(contents[1..], pattern, matches);
      forall e | e in rest
        ensures e.key != contents[0].key
      {
        var i :| 0 <= i < |contents[1..]| && contents[1..][i] == e;
        assert contents[i + 1] == e;
      }
    }
  }
}
