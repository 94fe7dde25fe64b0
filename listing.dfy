/** The paginated listing drain of `BlobClient.GetContainerListAsync`.

    The storage service answers a segmented-list request with one page: a batch of items and a
    continuation token, where a null token means "no more pages". The service is modelled by the
    finite sequence of pages it would serve in one enumeration session; the token of page `i`
    locates page `i + 1`. An optional `failure` is the error that the request following the last
    page raises, which models a page fetch that throws. */
module Listing {
  import opened Wrappers
  import opened Storage

  /** One segment of a listing: its items (`Results`) and its `ContinuationToken`. */
  datatype Page<T, K> = Page(results: seq<T>, continuation: Option<K>)

  /** The service side of one enumeration session. */
  datatype Backend<T, K> = Backend(pages: seq<Page<T, K>>, failure: Option<StorageError>)

  /** An honest, finite session: every page but the last carries a token, tokens are never reused,
      and the session ends either with a page whose token is null or with a failing request. */
  predicate WellFormed<T, K(==)>(b: Backend<T, K>) {
    && (forall i :: 0 <= i < |b.pages| - 1 ==> b.pages[i].continuation.Some?)
    && (b.failure.None? ==> |b.pages| > 0 && b.pages[|b.pages| - 1].continuation.None?)
    && (b.failure.Some? ==> forall i :: 0 <= i < |b.pages| ==> b.pages[i].continuation.Some?)
    && (forall i, j :: 0 <= i < j < |b.pages| && b.pages[i].continuation.Some? ==>
          b.pages[i].continuation != b.pages[j].continuation)
  }

  /** The first page that returned token `k`, or `|pages|` when none did. */
  function TokenIndex<T, K(==)>(pages: seq<Page<T, K>>, k: K): (i: nat)
    ensures i <= |pages|
    ensures i < |pages| ==> pages[i].continuation == Some(k)
    ensures forall j :: 0 <= j < i ==> pages[j].continuation != Some(k)
  {
    if pages == [] then 0
    else if pages[0].continuation == Some(k) then 0
    else 1 + TokenIndex(pages[1..], k)
  }

  /** The service's answer to `ListBlobsSegmentedAsync(null, token)`: a null token asks for the
      first page; a token returned by page `i` asks for page `i + 1`. Every page served belongs
      to the session, and every error is either the session's failure or an unknown token. */
  function Fetch<T, K(==)>(b: Backend<T, K>, token: Option<K>): (r: Result<Page<T, K>, StorageError>)
    ensures r.Success? ==> r.value in b.pages
    ensures r.Failure? ==> r.error == InvalidContinuation || b.failure == Some(r.error)
  {
    var next := match token
      case None => 0
      case Some(k) => TokenIndex(b.pages, k) + 1;
    if next < |b.pages| then Success(b.pages[next])
    else if next == |b.pages| && b.failure.Some? then Failure(b.failure.value)
    else Failure(InvalidContinuation)
  }

  /** The items of the pages, in page order and, within a page, in item order. */
  function Concat<T, K>(pages: seq<Page<T, K>>): seq<T> {
    if pages == [] then []
    else Concat(pages[..|pages| - 1]) + pages[|pages| - 1].results
  }

  /** The total number of items on the pages. */
  function TotalResults<T, K>(pages: seq<Page<T, K>>): nat {
    if pages == [] then 0
    else TotalResults(pages[..|pages| - 1]) + |pages[|pages| - 1].results|
  }

  /** The token the request after `k` pages carries: null first, then the last page's token. */
  function TokenAfter<T, K>(b: Backend<T, K>, k: nat): Option<K>
    requires k <= |b.pages|
  {
    if k == 0 then None else b.pages[k - 1].continuation
  }

  /** In a well-formed session, a request made after `k` pages that carries a token (or none,
      for the first) is answered with page `k`, or with the failure once the pages run out. */
  lemma FetchFollowsToken<T, K>(b: Backend<T, K>, k: nat)
    requires WellFormed(b)
    requires k <= |b.pages| && (k == 0 || TokenAfter(b, k).Some?)
    ensures k < |b.pages| || b.failure.Some?
    ensures Fetch(b, TokenAfter(b, k))
         == if k < |b.pages| then Success(b.pages[k]) else Failure(b.failure.value)
  {
  }

  /** In a well-formed session, only the last page has a null token, and only when no failure
      follows it. */
  lemma NullTokenEndsSession<T, K>(b: Backend<T, K>, k: nat)
    requires WellFormed(b)
    requires 0 < k <= |b.pages| && TokenAfter(b, k).None?
    ensures k == |b.pages| && b.failure.None?
  {
  }

  /** Draining one more page appends that page's items. */
  lemma ConcatStep<T, K>(pages: seq<Page<T, K>>, k: nat)
    requires k < |pages|
    ensures Concat(pages[..k + 1]) == Concat(pages[..k]) + pages[k].results
  {
    assert pages[..k + 1][..k] == pages[..k];
  }

  /** The inner `foreach`: `Add` each item of a page to the list, in order. */
  method AddAll<T>(items: seq<T>, results: seq<T>) returns (grown: seq<T>)
    ensures grown == items + results
  {
    grown := items;
    for j := 0 to |results|
      invariant grown == items + results[..j]
    {
      grown := grown + [results[j]];
    }
    assert results[..|results|] == results;
  }

  /** `GetContainerListAsync`: fetch pages, starting with a null token and passing on the token
      each page returns, append every item of every page, and stop after the first page whose
      token is null. Besides the list, the method returns the tokens of the requests it made,
      in order. A failing request aborts the drain: no partial list is returned. */
  method GetContainerList<T, K(==)>(b: Backend<T, K>)
    returns (r: Result<seq<T>, StorageError>, requests: seq<Option<K>>)
    requires WellFormed(b)
    // one request per page, plus the one that failed; at least one request is always made
    ensures |requests| == |b.pages| + (if b.failure.Some? then 1 else 0)
    ensures |requests| >= 1 && requests[0] == None
    ensures forall i :: 0 < i < |requests| ==> requests[i] == b.pages[i - 1].continuation
    ensures forall i :: 0 < i < |requests| ==> requests[i].Some?
    ensures b.failure.None? ==> r == Success(Concat(b.pages))
    ensures b.failure.Some? ==> r == Failure(b.failure.value)
  {
    var items: seq<T> := [];
    var token: Option<K> := None;
    requests := [];
    while requests == [] || token.Some?
      invariant |requests| <= |b.pages|
      invariant items == Concat(b.pages[..|requests|])
      invariant token == TokenAfter(b, |requests|)
      invariant |requests| > 0 ==> requests[0] == None
      invariant forall i :: 0 < i < |requests| ==> requests[i] == b.pages[i - 1].continuation
      decreases |b.pages| + 1 - |requests|
    {
      var k := |requests|;
      FetchFollowsToken(b, k);
      requests := requests + [token];
      var response := Fetch(b, token);
      if response.Failure? {
        return Failure(response.error), requests;
      }
      var page := response.value;
      token := page.continuation;
      items := AddAll(items, page.results);
      ConcatStep(b.pages, k);
    }
    NullTokenEndsSession(b, |requests|);
    assert b.pages[..|b.pages|] == b.pages;
    r := Success(items);
  }

  /** The drained list is as long as all pages together: nothing is dropped or duplicated. */
  lemma {:induction false} ConcatLength<T, K>(pages: seq<Page<T, K>>)
    ensures |Concat(pages)| == TotalResults(pages)
  {
    if pages != [] {
      ConcatLength(pages[..|pages| - 1]);
    }
  }

  /** Draining two runs of pages one after the other is the same as concatenating their drains. */
  lemma {:induction false} ConcatAppend<T, K>(a: seq<Page<T, K>>, b: seq<Page<T, K>>)
    ensures Concat(a + b) == Concat(a) + Concat(b)
    decreases |b|
  {
    if b == [] {
      assert a + b == a;
    } else {
      var c := b[..|b| - 1];
      assert (a + b)[..|a + b| - 1] == a + c;
      ConcatAppend(a, c);
    }
  }

  /** Item `j` of page `i` sits at position `TotalResults(pages[..i]) + j` of the drained list:
      pages keep their arrival order and items keep their order within a page. */
  lemma ConcatAt<T, K>(pages: seq<Page<T, K>>, i: nat, j: nat)
    requires i < |pages| && j < |pages[i].results|
    ensures TotalResults(pages[..i]) + j < |Concat(pages)|
    ensures Concat(pages)[TotalResults(pages[..i]) + j] == pages[i].results[j]
  {
    assert pages == pages[..i] + [pages[i]] + pages[i + 1..];
    ConcatAppend(pages[..i] + [pages[i]], pages[i + 1..]);
    ConcatAppend(pages[..i], [pages[i]]);
    assert Concat([pages[i]]) == pages[i].results by {
      assert [pages[i]][..0] == [];
    }
    ConcatLength(pages[..i]);
  }

  /** Every item of the drained list comes from some page, at the position `ConcatAt` gives. */
  lemma {:induction false} ConcatFrom<T, K>(pages: seq<Page<T, K>>, n: nat)
    requires n < |Concat(pages)|
    ensures exists i, j :: (0 <= i < |pages| && 0 <= j < |pages[i].results| &&
      n == TotalResults(pages[..i]) + j && Concat(pages)[n] == pages[i].results[j])
    decreases |pages|
  {
    var init := pages[..|pages| - 1];
    var last := |pages| - 1;
    assert pages[..last] == init;
    ConcatLength(init);
    if n < |Concat(init)| {
      ConcatFrom(init, n);
      var i, j :| 0 <= i < |init| && 0 <= j < |init[i].results| &&
        n == TotalResults(init[..i]) + j && Concat(init)[n] == init[i].results[j];
      assert init[..i] == pages[..i];
    } else {
      assert Concat(pages)[n] == pages[last].results[n - TotalResults(init)];
    }
  }

  /** A page with no items but a non-null token does not end the session: another request
      follows, so later pages are still drained. */
  lemma EmptyPageDoesNotStop<T, K>(b: Backend<T, K>, i: nat)
    requires WellFormed(b)
    requires i < |b.pages| && b.pages[i].continuation.Some?
    ensures i + 1 < |b.pages| || b.failure.Some?
  {
  }

  /** A session of a single page with a null token drains to exactly that page's items. */
  lemma SinglePage<T, K>(b: Backend<T, K>)
    requires WellFormed(b)
    requires |b.pages| == 1 && b.pages[0].continuation.None?
    ensures b.failure.None?
    ensures Concat(b.pages) == b.pages[0].results
  {
    assert b.pages[..0] == [];
  }
}
