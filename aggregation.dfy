/**
 * The per-URL aggregation done by the paragraph callback of go_wiki_reader.go:
 * every paragraph's text is trimmed, dropped when empty, and otherwise merged
 * into the one record kept for its request URL (find-or-create on an ordered
 * list). `Aggregated` says independently what the list must be after any
 * sequence of callbacks; `Aggregator.Merge` is the in-place update, proved
 * to keep the list equal to it.
 */
module Aggregation {
  import opened Outcomes
  import opened TextUtil

  /** `PageData`: one output record. */
  datatype PageData = PageData(url: string, text: string)

  /** One paragraph callback: the request URL and the element's raw text. */
  datatype Fragment = Fragment(url: string, raw: string)

  /** The fragment adds text for `u`: it was seen on `u` and is not blank. */
  predicate Contributes(f: Fragment, u: string)
  {
    f.url == u && TrimSpace(f.raw) != ""
  }

  predicate Distinct<T(==)>(s: seq<T>)
  {
    forall i, j :: 0 <= i < j < |s| ==> s[i] != s[j]
  }

  /** The position of the first call that adds text for `u`, if any. */
  function FirstKept(calls: seq<Fragment>, u: string): (r: Option<nat>)
    ensures r == None <==> forall k :: 0 <= k < |calls| ==> !Contributes(calls[k], u)
    ensures r.Some? ==>
      (r.value < |calls| && Contributes(calls[r.value], u)
       && forall k :: 0 <= k < r.value ==> !Contributes(calls[k], u))
  {
    if calls == [] then None
    else
      var n := |calls| - 1;
      match FirstKept(calls[..n], u)
      case Some(k) => Some(k)
      case None => if Contributes(calls[n], u) then Some(n) else None
  }

  /** The trimmed, non-blank fragments seen on `u`, in call order. */
  function TextsFor(calls: seq<Fragment>, u: string): (r: seq<string>)
    ensures |r| <= |calls|
    ensures forall k :: 0 <= k < |r| ==> r[k] != ""
    ensures r == [] <==> FirstKept(calls, u) == None
  {
    if calls == [] then []
    else
      var n := |calls| - 1;
      TextsFor(calls[..n], u) + (if Contributes(calls[n], u) then [TrimSpace(calls[n].raw)] else [])
  }

  /** The URLs that received text, each once, in the order they first did. */
  function FirstSeen(calls: seq<Fragment>): seq<string>
  {
    if calls == [] then []
    else
      var n := |calls| - 1;
      var earlier := FirstSeen(calls[..n]);
      if Contributes(calls[n], calls[n].url) && calls[n].url !in earlier
      then earlier + [calls[n].url]
      else earlier
  }

  /**
   * The record list after the callbacks `calls`: one record per URL that
   * received text, in first-seen order, whose text is that URL's fragments
   * joined by single spaces.
   */
  function Aggregated(calls: seq<Fragment>): seq<PageData>
  {
    var urls := FirstSeen(calls);
    seq(|urls|, i requires 0 <= i < |urls| => PageData(urls[i], JoinSpace(TextsFor(calls, urls[i]))))
  }

  /** The set of URLs that received text. */
  function KeptUrls(calls: seq<Fragment>): set<string>
  {
    set k | 0 <= k < |calls| && Contributes(calls[k], calls[k].url) :: calls[k].url
  }

  /** The position of the first record for `url`, if any: the lookup loop of the callback. */
  function UrlIndex(records: seq<PageData>, url: string): (r: Option<nat>)
    ensures r == None <==> forall k :: 0 <= k < |records| ==> records[k].url != url
    ensures r.Some? ==>
      (r.value < |records| && records[r.value].url == url
       && forall k :: 0 <= k < r.value ==> records[k].url != url)
  {
    if records == [] then None
    else if records[0].url == url then Some(0)
    else match UrlIndex(records[1..], url)
      case None => None
      case Some(k) => Some(k + 1)
  }

  /** A URL is listed exactly when some call added text for it. */
  lemma {:induction false} FirstSeenMember(calls: seq<Fragment>, u: string)
    ensures u in FirstSeen(calls) <==> FirstKept(calls, u).Some?
  {
    if calls != [] {
      var n := |calls| - 1;
      FirstSeenMember(calls[..n], u);
    }
  }

  /** No URL is listed twice. */
  lemma {:induction false} FirstSeenDistinct(calls: seq<Fragment>)
    ensures Distinct(FirstSeen(calls))
  {
    if calls != [] {
      FirstSeenDistinct(calls[..|calls| - 1]);
    }
  }

  /** URLs are listed in the order in which each first received text. */
  lemma {:induction false} FirstSeenOrder(calls: seq<Fragment>, i: nat, j: nat)
    requires i < j < |FirstSeen(calls)|
    ensures FirstKept(calls, FirstSeen(calls)[i]).Some? && FirstKept(calls, FirstSeen(calls)[j]).Some?
    ensures FirstKept(calls, FirstSeen(calls)[i]).value < FirstKept(calls, FirstSeen(calls)[j]).value
  {
    var n := |calls| - 1;
    var earlier := FirstSeen(calls[..n]);
    var us := FirstSeen(calls);
    FirstSeenMember(calls, us[i]);
    FirstSeenMember(calls, us[j]);
    if j < |earlier| {
      FirstSeenOrder(calls[..n], i, j);
      FirstSeenMember(calls[..n], us[i]);
      FirstSeenMember(calls[..n], us[j]);
    } else {
      assert us == earlier + [calls[n].url];
      FirstSeenMember(calls[..n], us[j]);
      FirstSeenMember(calls[..n], us[i]);
    }
  }

  /** A sequence without repetitions has as many elements as its set. */
  lemma {:induction false} DistinctCardinality(s: seq<string>)
    requires Distinct(s)
    ensures |set x | x in s| == |s|
  {
    if s != [] {
      var t := s[..|s| - 1];
      DistinctCardinality(t);
      assert (set x | x in s) == (set x | x in t) + {s[|s| - 1]};
      assert s[|s| - 1] !in t;
    }
  }

  /** No two records share a URL. */
  lemma AggregatedUrlsUnique(calls: seq<Fragment>)
    ensures forall i, j :: 0 <= i < j < |Aggregated(calls)| ==> Aggregated(calls)[i].url != Aggregated(calls)[j].url
  {
    FirstSeenDistinct(calls);
  }

  /** Every record's text is non-empty. */
  lemma AggregatedTextsNonEmpty(calls: seq<Fragment>)
    ensures forall i :: 0 <= i < |Aggregated(calls)| ==> Aggregated(calls)[i].text != ""
  {
    var us := FirstSeen(calls);
    forall i | 0 <= i < |us|
      ensures Aggregated(calls)[i].text != ""
    {
      FirstSeenMember(calls, us[i]);
      JoinSpaceNonEmpty(TextsFor(calls, us[i]));
    }
  }

  /**
   * There is exactly one record per URL that received text: with N
   * fragments over M such URLs, M records.
   */
  lemma AggregatedRecordCount(calls: seq<Fragment>)
    ensures |Aggregated(calls)| == |KeptUrls(calls)|
  {
    var us := FirstSeen(calls);
    FirstSeenDistinct(calls);
    DistinctCardinality(us);
    forall u
      ensures u in us <==> u in KeptUrls(calls)
    {
      FirstSeenMember(calls, u);
      if u in KeptUrls(calls) {
        var k :| 0 <= k < |calls| && Contributes(calls[k], calls[k].url) && calls[k].url == u;
        assert Contributes(calls[k], u);
      }
    }
    assert (set x | x in us) == KeptUrls(calls);
  }

  /** A callback whose text is blank after trimming leaves the records as they were. */
  lemma AggregatedSkipsBlank(calls: seq<Fragment>, f: Fragment)
    requires TrimSpace(f.raw) == ""
    ensures Aggregated(calls + [f]) == Aggregated(calls)
  {
    var cs := calls + [f];
    assert cs[..|cs| - 1] == calls;
    var us := FirstSeen(calls);
    assert FirstSeen(cs) == us;
    forall j | 0 <= j < |us|
      ensures Aggregated(cs)[j] == Aggregated(calls)[j]
    {
      assert TextsFor(cs, us[j]) == TextsFor(calls, us[j]);
    }
  }

  /**
   * A callback on a URL that already has a record appends one space and the
   * trimmed text to that record; the length, the order and every other
   * record stay as they were.
   */
  lemma AggregatedAppendsToExisting(calls: seq<Fragment>, f: Fragment, i: nat)
    requires TrimSpace(f.raw) != ""
    requires i < |Aggregated(calls)| && Aggregated(calls)[i].url == f.url
    ensures Aggregated(calls + [f]) ==
      Aggregated(calls)[i := PageData(f.url, Aggregated(calls)[i].text + " " + TrimSpace(f.raw))]
  {
    var cs := calls + [f];
    assert cs[..|cs| - 1] == calls;
    var us := FirstSeen(calls);
    var before := Aggregated(calls);
    var t := TrimSpace(f.raw);
    FirstSeenDistinct(calls);
    FirstSeenMember(calls, f.url);
    assert FirstSeen(cs) == us;
    JoinSpaceSnoc(TextsFor(calls, f.url), t);
    forall j | 0 <= j < |us|
      ensures Aggregated(cs)[j] == before[i := PageData(f.url, before[i].text + " " + t)][j]
    {
      if j != i {
        assert us[j] != f.url;
        assert TextsFor(cs, us[j]) == TextsFor(calls, us[j]);
      }
    }
  }

  /**
   * A callback on a URL without a record appends exactly one record, holding
   * the trimmed text, after the existing ones, which stay as they were.
   */
  lemma AggregatedCreatesRecord(calls: seq<Fragment>, f: Fragment)
    requires TrimSpace(f.raw) != ""
    requires f.url !in FirstSeen(calls)
    ensures Aggregated(calls + [f]) == Aggregated(calls) + [PageData(f.url, TrimSpace(f.raw))]
  {
    var cs := calls + [f];
    assert cs[..|cs| - 1] == calls;
    var us := FirstSeen(calls);
    var before := Aggregated(calls);
    FirstSeenMember(calls, f.url);
    assert FirstSeen(cs) == us + [f.url];
    assert TextsFor(cs, f.url) == [TrimSpace(f.raw)];
    forall j | 0 <= j < |us|
      ensures Aggregated(cs)[j] == before[j]
    {
      assert TextsFor(cs, us[j]) == TextsFor(calls, us[j]);
    }
  }

  /** The scenario of two paragraphs "Hello" and "world" on one page gives one record "Hello world". */
  lemma HelloWorldScenario()
    ensures Aggregated([Fragment("https://example.com/a", "Hello"), Fragment("https://example.com/a", "world")])
      == [PageData("https://example.com/a", "Hello world")]
  {
    var a := "https://example.com/a";
    var f1, f2 := Fragment(a, "Hello"), Fragment(a, "world");
    assert TrimSpace("Hello") == "Hello";
    assert TrimSpace("world") == "world";
    assert [f1] == [] + [f1];
    AggregatedCreatesRecord([], f1);
    assert Aggregated([f1]) == [PageData(a, "Hello")];
    assert UrlIndex(Aggregated([f1]), a) == Some(0);
    AggregatedAppendsToExisting([f1], f2, 0);
    assert [f1] + [f2] == [f1, f2];
    assert "Hello" + " " + "world" == "Hello world";
  }

  /**
   * The slice of records the callbacks share (`scrapedData`), with the one
   * operation they perform on it.
   */
  class Aggregator {
    /** The records, in the order they were created. */
    var records: seq<PageData>
    /** Every fragment handed to `Merge` so far, in call order. */
    ghost var calls: seq<Fragment>

    /** The records are exactly what the fragments seen so far determine. */
    ghost predicate Valid()
      reads this
    {
      records == Aggregated(calls)
    }

    constructor ()
      ensures Valid() && calls == [] && records == []
    {
      records := [];
      calls := [];
    }

    /**
     * The body of the paragraph callback: trim `fragment`; if anything is
     * left, append it (after one space) to the record of `url`, or create
     * that record at the end of the list.
     */
    method Merge(url: string, fragment: string)
      requires Valid()
      modifies this
      ensures Valid()
      ensures calls == old(calls) + [Fragment(url, fragment)]
      ensures TrimSpace(fragment) == "" ==> records == old(records)
      ensures TrimSpace(fragment) != "" && UrlIndex(old(records), url).Some? ==>
        var i := UrlIndex(old(records), url).value;
        records == old(records)[i := PageData(url, old(records)[i].text + " " + TrimSpace(fragment))]
      ensures TrimSpace(fragment) != "" && UrlIndex(old(records), url).None? ==>
        records == old(records) + [PageData(url, TrimSpace(fragment))]
      ensures forall i, j :: 0 <= i < j < |records| ==> records[i].url != records[j].url
      ensures forall i :: 0 <= i < |records| ==> records[i].text != ""
    {
      var text := TrimSpace(fragment);
      ghost var f := Fragment(url, fragment);
      if text != "" {
        var merged := FindOrAppend(records, url, text);
        ghost var at := UrlIndex(records, url);
        if at.Some? {
          AggregatedAppendsToExisting(calls, f, at.value);
        } else {
          forall k | 0 <= k < |records|
            ensures FirstSeen(calls)[k] != url
          {
            assert records[k].url == FirstSeen(calls)[k];
          }
          AggregatedCreatesRecord(calls, f);
        }
        records := merged;
      } else {
        AggregatedSkipsBlank(calls, f);
      }
      calls := calls + [f];
      AggregatedUrlsUnique(calls);
      AggregatedTextsNonEmpty(calls);
    }
  }

  /**
   * The find-or-create loop of the callback: the first record of `url` gets
   * `" " + text` appended in place and the search stops; if the scan finds
   * none, a record `{url, text}` is appended.
   */
  method FindOrAppend(data: seq<PageData>, url: string, text: string) returns (result: seq<PageData>)
    ensures UrlIndex(data, url).Some? ==>
      var i := UrlIndex(data, url).value;
      result == data[i := PageData(url, data[i].text + " " + text)]
    ensures UrlIndex(data, url).None? ==> result == data + [PageData(url, text)]
  {
    result := data;
    var found := false;
    var i := 0;
    while i < |result|
      invariant 0 <= i <= |result|
      invariant !found && result == data
      invariant forall j :: 0 <= j < i ==> result[j].url != url
    {
      if result[i].url == url {
        result := result[i := result[i].(text := result[i].text + " " + text)];
        found := true;
        break;
      }
      i := i + 1;
    }
    if !found {
      result := result + [PageData(url, text)];
    }
  }
}
