/**
 * Title backfill for CARS-format records (replace_cars_titles.py): a
 * URL-to-title table loaded from the document collection, and the rewrite
 * that gives every click of every query the title of its URL.
 */
module Titles {
  import opened Wrappers
  import opened Strings

  /** A document of the collection, as far as the table needs it. */
  datatype DocEntry = DocEntry(url: string, title: string)

  /** A click object: its `url`, its `title` if it has one, and its other fields. */
  datatype Click = Click(url: string, title: Option<string>, rest: map<string, string>)

  /** A query object: its `clicks` and its other fields. */
  datatype CarsQuery = CarsQuery(clicks: seq<Click>, rest: map<string, string>)

  /** One line of the input: its `query` list and its other fields. */
  datatype CarsRecord = CarsRecord(queries: seq<CarsQuery>, rest: map<string, string>)

  /** Entry `i` is the last document with its URL. */
  ghost predicate LastWithUrl(docs: seq<DocEntry>, i: int)
    requires 0 <= i < |docs|
  {
    forall j :: i < j < |docs| ==> docs[j].url != docs[i].url
  }

  /**
   * Lines 12-14: `url_to_title[doc.url] = doc.title` for every document in
   * order; every URL is a key and, when documents share a URL, the last
   * one's title is kept.
   */
  method LoadTitles(docs: seq<DocEntry>) returns (table: map<string, string>)
    ensures forall url :: url in table <==> exists i :: 0 <= i < |docs| && docs[i].url == url
    ensures forall i :: 0 <= i < |docs| && LastWithUrl(docs, i) ==> table[docs[i].url] == docs[i].title
  {
    table := map[];
    var n := 0;
    while n < |docs|
      invariant 0 <= n <= |docs|
      invariant forall url :: url in table <==> exists i :: 0 <= i < n && docs[i].url == url
      invariant forall i :: 0 <= i < n && (forall j :: i < j < n ==> docs[j].url != docs[i].url)
                  ==> table[docs[i].url] == docs[i].title
    {
      table := table[docs[n].url := docs[n].title];
      n := n + 1;
    }
  }

  /**
   * Line 22: the title of the exact URL first, then that of the URL
   * without its trailing slashes, then the empty title.
   */
  function LookupTitle(table: map<string, string>, url: string): string
  {
    if url in table then table[url]
    else
      var stripped := RStripChar(url, '/');
      if stripped in table then table[stripped] else ""
  }

  /** A URL the table knows gets its own title. */
  lemma ExactMatchWins(table: map<string, string>, url: string)
    requires url in table
    ensures LookupTitle(table, url) == table[url]
  {
  }

  /** `s` followed by `n` slashes. */
  function WithSlashes(s: string, n: nat): (r: string)
    ensures |r| == |s| + n && r[..|s|] == s
    ensures forall i :: |s| <= i < |r| ==> r[i] == '/'
  {
    s + seq(n, _ => '/')
  }

  /**
   * A URL that differs from a known one only by trailing slashes, and is
   * not itself known, gets the known one's title.
   */
  lemma TrailingSlashFallback(table: map<string, string>, base: string, n: nat)
    requires base == [] || base[|base| - 1] != '/'
    requires base in table && WithSlashes(base, n) !in table
    ensures LookupTitle(table, WithSlashes(base, n)) == table[base]
  {
    RStripSlashes(base, n);
  }

  lemma {:induction false} RStripSlashes(base: string, n: nat)
    requires base == [] || base[|base| - 1] != '/'
    ensures RStripChar(WithSlashes(base, n), '/') == base
    decreases n
  {
    var s := WithSlashes(base, n);
    if n == 0 {
      assert s == base;
    } else {
      assert s[..|s| - 1] == WithSlashes(base, n - 1);
      RStripSlashes(base, n - 1);
    }
  }

  /** A URL unknown with and without its trailing slashes gets the empty title. */
  lemma NoMatchIsEmpty(table: map<string, string>, url: string)
    requires url !in table && RStripChar(url, '/') !in table
    ensures LookupTitle(table, url) == ""
  {
  }

  /** Lines 22-23 for one click: `click['title'] = title`. */
  function BackfillClick(c: Click, table: map<string, string>): Click
  {
    c.(title := Some(LookupTitle(table, c.url)))
  }

  function BackfillQuery(q: CarsQuery, table: map<string, string>): (r: CarsQuery)
    ensures |r.clicks| == |q.clicks|
  {
    q.(clicks := seq(|q.clicks|, k requires 0 <= k < |q.clicks| => BackfillClick(q.clicks[k], table)))
  }

  /** The record with every click of every query given its title. */
  function Backfilled(r: CarsRecord, table: map<string, string>): (out: CarsRecord)
    ensures |out.queries| == |r.queries|
  {
    r.(queries := seq(|r.queries|, i requires 0 <= i < |r.queries| => BackfillQuery(r.queries[i], table)))
  }

  /**
   * Every click of every query gets the title its URL looks up to, and
   * nothing else changes: the same queries and clicks in the same order,
   * the same URLs, the same other fields.
   */
  lemma BackfilledShape(r: CarsRecord, table: map<string, string>)
    ensures var out := Backfilled(r, table);
      && out.rest == r.rest
      && |out.queries| == |r.queries|
      && forall i :: 0 <= i < |r.queries| ==>
           && out.queries[i].rest == r.queries[i].rest
           && |out.queries[i].clicks| == |r.queries[i].clicks|
           && forall j :: 0 <= j < |r.queries[i].clicks| ==>
                var c, c' := r.queries[i].clicks[j], out.queries[i].clicks[j];
                c'.url == c.url && c'.rest == c.rest && c'.title == Some(LookupTitle(table, c.url))
  {
  }

  /** Backfilling twice gives the same record as once. */
  lemma BackfilledIdempotent(r: CarsRecord, table: map<string, string>)
    ensures Backfilled(Backfilled(r, table), table) == Backfilled(r, table)
  {
    var once := Backfilled(r, table);
    var twice := Backfilled(once, table);
    forall i | 0 <= i < |r.queries|
      ensures twice.queries[i] == once.queries[i]
    {
      assert twice.queries[i].clicks == once.queries[i].clicks;
    }
    assert twice.queries == once.queries;
  }

  /** The parsed JSON object of one line, whose click titles the rewrite sets in place. */
  class CarsData {
    var queries: seq<CarsQuery>
    const rest: map<string, string>

    function Value(): CarsRecord
      reads this
    {
      CarsRecord(queries, rest)
    }

    constructor (r: CarsRecord)
      ensures Value() == r
    {
      queries := r.queries;
      rest := r.rest;
    }

    /**
     * Lines 18-23: for each query, for each click, set the click's title;
     * the object becomes the backfilled record.
     */
    method Backfill(table: map<string, string>)
      modifies this
      ensures Value() == Backfilled(old(Value()), table)
    {
      ghost var original := queries;
      var i := 0;
      while i < |queries|
        invariant 0 <= i <= |queries| && |queries| == |original|
        invariant forall m :: 0 <= m < i ==> queries[m] == BackfillQuery(original[m], table)
        invariant forall m :: i <= m < |queries| ==> queries[m] == original[m]
      {
        var j := 0;
        while j < |queries[i].clicks|
          invariant |queries| == |original| && i < |queries|
          invariant 0 <= j <= |queries[i].clicks|
          invariant queries[i].rest == original[i].rest
          invariant |queries[i].clicks| == |original[i].clicks|
          invariant forall k :: 0 <= k < j ==> queries[i].clicks[k] == BackfillClick(original[i].clicks[k], table)
          invariant forall k :: j <= k < |queries[i].clicks| ==> queries[i].clicks[k] == original[i].clicks[k]
          invariant forall m :: 0 <= m < i ==> queries[m] == BackfillQuery(original[m], table)
          invariant forall m :: i < m < |queries| ==> queries[m] == original[m]
        {
          var q := queries[i];
          var c := q.clicks[j];
          queries := queries[i := q.(clicks := q.clicks[j := c.(title := Some(LookupTitle(table, c.url)))])];
          j := j + 1;
        }
        assert queries[i].clicks == BackfillQuery(original[i], table).clicks;
        i := i + 1;
      }
      assert queries == Backfilled(old(Value()), table).queries;
    }
  }

  /**
   * Lines 15-24: one output record per input line, in the same order, each
   * the input with its titles backfilled.
   */
  method RewriteLines(lines: seq<CarsRecord>, table: map<string, string>) returns (out: seq<CarsRecord>)
    ensures |out| == |lines|
    ensures forall k :: 0 <= k < |lines| ==> out[k] == Backfilled(lines[k], table)
  {
    out := [];
    var k := 0;
    while k < |lines|
      invariant 0 <= k <= |lines| && |out| == k
      invariant forall m :: 0 <= m < k ==> out[m] == Backfilled(lines[m], table)
    {
      var data := new CarsData(lines[k]);
      data.Backfill(table);
      out := out + [data.Value()];
      k := k + 1;
    }
  }
}
