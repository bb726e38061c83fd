/** The charge-log store (`history_store`). Each download fetches one page
    of log entries, merges it with the entries already held, drops
    structural duplicates and keeps the list sorted newest first by `time`.
    Timestamps share one fixed RFC 3339 UTC format, so their string order
    (section 5.1 of RFC 3339) is their chronological order. */
module History {
  import opened Wrappers
  import opened Text
  import opened Json
  import opened Http
  import Utils

  /** The `time` of an entry; an entry without a string `time` sorts as "". */
  function TimeOf(e: Json): string
  {
    match Get(e, "time")
    case Some(Str(t)) => t
    case _ => ""
  }

  /** Entry `a` is not older than entry `b`. */
  predicate NotOlder(a: Json, b: Json)
  {
    !Less(TimeOf(a), TimeOf(b))
  }

  predicate NewestFirst(s: seq<Json>)
  {
    forall i, j :: 0 <= i < j < |s| ==> NotOlder(s[i], s[j])
  }

  /** Places `x` before the first entry of `s` it is not older than. */
  function Insert(x: Json, s: seq<Json>): (r: seq<Json>)
    ensures multiset(r) == multiset(s) + multiset{x}
  {
    if s == [] || NotOlder(x, s[0]) then [x] + s
    else
      assert s == [s[0]] + s[1..];
      [s[0]] + Insert(x, s[1..])
  }

  /** The descending sort by `time`. */
  function SortNewestFirst(s: seq<Json>): (r: seq<Json>)
    ensures multiset(r) == multiset(s)
  {
    if s == [] then []
    else
      assert s == [s[0]] + s[1..];
      Insert(s[0], SortNewestFirst(s[1..]))
  }

  /** An entry not older than `x` and than every entry of `s` is not older
      than any entry of `Insert(x, s)`. */
  lemma InsertBounded(h: Json, x: Json, s: seq<Json>)
    requires NotOlder(h, x)
    requires forall k :: 0 <= k < |s| ==> NotOlder(h, s[k])
    ensures forall j :: 0 <= j < |Insert(x, s)| ==> NotOlder(h, Insert(x, s)[j])
  {
    var r := Insert(x, s);
    forall j | 0 <= j < |r| ensures NotOlder(h, r[j]) {
      assert r[j] in multiset(r);
      if r[j] != x {
        assert r[j] in multiset(s);
        var k :| 0 <= k < |s| && s[k] == r[j];
      }
    }
  }

  /** `x` is older than `y` only if `y` is not older than `x`. */
  lemma OlderFlip(x: Json, y: Json)
    requires !NotOlder(x, y)
    ensures NotOlder(y, x)
  {
    if Less(TimeOf(y), TimeOf(x)) {
      LessTransitive(TimeOf(x), TimeOf(y), TimeOf(x));
      LessIrreflexive(TimeOf(x));
    }
  }

  lemma {:induction false} InsertSorted(x: Json, s: seq<Json>)
    requires NewestFirst(s)
    ensures NewestFirst(Insert(x, s))
  {
    if s == [] {
    } else if NotOlder(x, s[0]) {
      var r := [x] + s;
      forall j | 1 <= j < |r| ensures NotOlder(x, r[j]) {
        if j > 1 {
          NotLessTransitive(TimeOf(x), TimeOf(s[0]), TimeOf(r[j]));
        }
      }
    } else {
      InsertSorted(x, s[1..]);
      OlderFlip(x, s[0]);
      InsertBounded(s[0], x, s[1..]);
    }
  }

  /** The sort yields a newest-first permutation of its input. */
  lemma {:induction false} SortNewestFirstCorrect(s: seq<Json>)
    ensures NewestFirst(SortNewestFirst(s))
    ensures multiset(SortNewestFirst(s)) == multiset(s)
  {
    if s != [] {
      SortNewestFirstCorrect(s[1..]);
      InsertSorted(s[0], SortNewestFirst(s[1..]));
    }
  }

  /** Without duplicates, every entry occurs once. */
  lemma {:induction false} DistinctCount(s: seq<Json>, v: Json)
    requires Utils.Distinct(s)
    ensures multiset(s)[v] <= 1
  {
    if s != [] {
      assert s == [s[0]] + s[1..];
      DistinctCount(s[1..], v);
      if s[0] == v {
        assert v !in s[1..];
      }
    }
  }

  /** A permutation of a list without duplicates has none either. */
  lemma PermutationDistinct(s: seq<Json>, t: seq<Json>)
    requires Utils.Distinct(s) && multiset(s) == multiset(t)
    ensures Utils.Distinct(t)
  {
    forall i, j | 0 <= i < j < |t| ensures t[i] != t[j] {
      if t[i] == t[j] {
        var v := t[i];
        assert t == t[..j] + [v] + t[j + 1..];
        assert v in t[..j];
        assert multiset(t)[v] == multiset(t[..j])[v] + 1 + multiset(t[j + 1..])[v];
        DistinctCount(s, v);
      }
    }
  }

  /** The held list after downloading `page`: the previous entries and the
      page, duplicates dropped, newest first. */
  function MergeLogs(held: seq<Json>, page: seq<Json>): seq<Json>
  {
    SortNewestFirst(Utils.Dedup(held + page))
  }

  /** The merged list is sorted newest first, holds no duplicates, and holds
      exactly the entries that were held or downloaded. */
  lemma MergeLogsCorrect(held: seq<Json>, page: seq<Json>)
    ensures NewestFirst(MergeLogs(held, page))
    ensures Utils.Distinct(MergeLogs(held, page))
    ensures forall e :: e in MergeLogs(held, page) <==> e in held || e in page
  {
    var d := Utils.Dedup(held + page);
    Utils.DedupCorrect(held + page);
    SortNewestFirstCorrect(d);
    PermutationDistinct(d, MergeLogs(held, page));
    forall e ensures e in MergeLogs(held, page) <==> e in d {
      assert e in MergeLogs(held, page) <==> e in multiset(MergeLogs(held, page));
    }
  }

  /** Into an empty store, a page without duplicates arrives whole. */
  lemma MergeIntoEmpty(page: seq<Json>)
    requires Utils.Distinct(page)
    ensures |MergeLogs([], page)| == |page|
  {
    assert [] + page == page;
    Utils.DedupOfDistinct(page);
    assert |multiset(MergeLogs([], page))| == |multiset(page)|;
  }

  /** Downloading again what is already held changes nothing. */
  lemma MergeAgainKeeps(held: seq<Json>, page: seq<Json>)
    ensures forall e :: e in MergeLogs(MergeLogs(held, page), page) <==> e in MergeLogs(held, page)
  {
    MergeLogsCorrect(held, page);
    MergeLogsCorrect(MergeLogs(held, page), page);
  }

  /** De-duplicating [older, newer, older] drops the repeat. */
  lemma DedupRepeat(older: Json, newer: Json)
    requires older != newer
    ensures Utils.Dedup([older] + [newer, older]) == [older, newer]
  {
    var s := [older] + [newer, older];
    assert s[..2] == [older, newer] && s[..2][..1] == [older] && [older][..0] == [];
    assert Utils.KeepFirstBy([older], Utils.Identity) == [older];
    assert Utils.FirstIndexOfKey([older], Utils.Identity, Utils.Identity(newer)) == 1;
    assert Utils.KeepFirstBy([older, newer], Utils.Identity) == [older, newer];
  }

  /** Merging a page that repeats a held entry: the repeat is dropped and
      the newer entry comes first. */
  lemma MergeRepeatedPage(older: Json, newer: Json)
    requires Less(TimeOf(older), TimeOf(newer))
    ensures MergeLogs([older], [newer, older]) == [newer, older]
  {
    LessIrreflexive(TimeOf(older));
    DedupRepeat(older, newer);
    assert [older, newer][1..] == [newer] && [newer][1..] == [];
    assert SortNewestFirst([newer]) == [newer];
  }

  /** Log timestamps of one fixed format order as the times they denote:
      the first of January comes before the second. */
  lemma TimestampOrder()
    ensures Less("2024-01-01T08:00:00Z", "2024-01-02T10:00:00Z")
  {
    var a, b := "2024-01-01T08:00:00Z", "2024-01-02T10:00:00Z";
    assert a[..9] == b[..9];
    LessAtFirstDifference(a, b, 9);
  }

  /** The page a successful download receives: the response, when it is a
      list. */
  predicate Accepted(response: Json)
  {
    !Failed(response) && response.Arr?
  }

  class HistoryStore {
    /** The held entries; an unset store (`undefined`) holds none. */
    var entries: seq<Json>

    constructor ()
      ensures entries == []
    {
      entries := [];
    }

    method Set(value: seq<Json>)
      modifies this
      ensures entries == value
    {
      entries := value;
    }

    /** `download(index)`: `GET /logs/<index>`; on success the page is merged
        into the held entries, on failure they stay as they were. */
    method Download(index: nat, response: Json) returns (ok: bool, req: Request)
      modifies this
      ensures req == Request(GET, ItemPath("/logs", index), None)
      ensures ok <==> Accepted(response)
      ensures ok ==> entries == MergeLogs(old(entries), response.items)
      ensures !ok ==> entries == old(entries)
    {
      req := Request(GET, ItemPath("/logs", index), None);
      ok := Accepted(response);
      if ok {
        entries := MergeLogs(entries, response.items);
      }
    }
  }
}
