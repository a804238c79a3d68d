/**
 * Token-drained pagination, as used by `listServices` and `getInstanceArns`.
 *
 * A paginated listing is modelled by the sequence of responses the remote API
 * gives to successive calls: the first call (without a token) is answered by
 * `pages[0]`, and each follow-up call, made with the token of the previous
 * response, is answered by the next page. A reader keeps calling while the
 * last response carries a `nextToken`.
 */
module Pagination {
  import opened Wrappers

  /** One response of a listing call: its identifiers and its continuation token, if any. */
  datatype Page = Page(arns: seq<string>, nextToken: Option<string>)

  /** The identifiers of `pages`, concatenated in page order. */
  function Flatten(pages: seq<Page>): (ids: seq<string>)
  {
    if |pages| == 0 then [] else pages[0].arns + Flatten(pages[1..])
  }

  /** Some response in the listing says that there are no more pages. */
  predicate Terminated(pages: seq<Page>)
  {
    exists k :: 0 <= k < |pages| && pages[k].nextToken.None?
  }

  /** Index of the first response that carries no continuation token. */
  function FinalIndex(pages: seq<Page>): (k: nat)
    requires Terminated(pages)
    ensures k < |pages| && pages[k].nextToken.None?
    ensures forall j :: 0 <= j < k ==> pages[j].nextToken.Some?
    decreases |pages|
  {
    if pages[0].nextToken.None? then 0
    else
      assert Terminated(pages[1..]) by {
        var k :| 0 <= k < |pages| && pages[k].nextToken.None?;
        assert pages[1..][k - 1] == pages[k];
      }
      FinalIndex(pages[1..]) + 1
  }

  /**
   * The reader: follows tokens until a response has none, and returns the
   * identifiers of every response read, in order. `None` when the responses
   * run out while the last one still asks for more.
   */
  function Drain(pages: seq<Page>): (r: Option<seq<string>>)
    ensures r.Some? <==> Terminated(pages)
    ensures r.Some? ==> r.value == Flatten(pages[..FinalIndex(pages) + 1])
    decreases |pages|
  {
    if |pages| == 0 then None
    else if pages[0].nextToken.None? then
      assert pages[..1][1..] == [];
      Some(pages[0].arns)
    else
      assert Terminated(pages) <==> Terminated(pages[1..]) by {
        if Terminated(pages) {
          var k :| 0 <= k < |pages| && pages[k].nextToken.None?;
          assert pages[1..][k - 1] == pages[k];
        }
        if Terminated(pages[1..]) {
          var k :| 0 <= k < |pages[1..]| && pages[1..][k].nextToken.None?;
          assert pages[k + 1] == pages[1..][k];
        }
      }
      match Drain(pages[1..])
      case None => None
      case Some(rest) =>
        var k := FinalIndex(pages[1..]);
        assert FinalIndex(pages) == k + 1;
        assert pages[..k + 2][1..] == pages[1..][..k + 1];
        Some(pages[0].arns + rest)
  }

  /** Concatenating two runs of pages concatenates their identifiers. */
  lemma {:induction false} FlattenAppend(a: seq<Page>, b: seq<Page>)
    ensures Flatten(a + b) == Flatten(a) + Flatten(b)
    decreases |a|
  {
    if |a| == 0 {
      assert a + b == b;
    } else {
      assert (a + b)[1..] == a[1..] + b;
      FlattenAppend(a[1..], b);
    }
  }

  /** The reader returns exactly the identifiers of the responses up to and including the final one. */
  lemma DrainMembership(pages: seq<Page>, x: string)
    requires Terminated(pages)
    ensures x in Drain(pages).value <==> exists i :: 0 <= i <= FinalIndex(pages) && x in pages[i].arns
  {
  }

  /** Responses after the final one are never requested: replacing them changes nothing. */
  lemma DrainStopsAtFinalPage(pages: seq<Page>, more: seq<Page>)
    requires Terminated(pages)
    ensures Drain(pages[..FinalIndex(pages) + 1] + more) == Drain(pages)
  {
    var k := FinalIndex(pages);
    var p := pages[..k + 1] + more;
    assert p[k] == pages[k];
    assert Terminated(p);
    assert FinalIndex(p) == k;
    assert p[..k + 1] == pages[..k + 1];
  }

  /** Size of a drained listing: the sum of the sizes of the pages read. */
  lemma {:induction false} DrainLength(pages: seq<Page>)
    requires Terminated(pages)
    ensures |Drain(pages).value| == TotalSize(pages[..FinalIndex(pages) + 1])
  {
    FlattenSize(pages[..FinalIndex(pages) + 1]);
  }

  /** The number of identifiers over all of `pages`. */
  function TotalSize(pages: seq<Page>): (size: nat)
  {
    if |pages| == 0 then 0 else |pages[0].arns| + TotalSize(pages[1..])
  }

  /** The concatenation is as long as the pages together. */
  lemma {:induction false} FlattenSize(pages: seq<Page>)
    ensures |Flatten(pages)| == TotalSize(pages)
    decreases |pages|
  {
    if |pages| > 0 {
      FlattenSize(pages[1..]);
    }
  }

  /**
   * The reader's loop as written: read the first response, and while the
   * last response has a token, read the next one and append its identifiers.
   */
  method DrainLoop(pages: seq<Page>) returns (r: Option<seq<string>>)
    ensures r.Some? <==> Terminated(pages)
    ensures r.Some? ==> r.value == Flatten(pages[..FinalIndex(pages) + 1])
  {
    if |pages| == 0 {
      return None;
    }
    var i := 0;
    var acc := pages[0].arns;
    assert pages[..1][1..] == [];
    while pages[i].nextToken.Some?
      invariant 0 <= i < |pages|
      invariant acc == Flatten(pages[..i + 1])
      invariant forall j :: 0 <= j < i ==> pages[j].nextToken.Some?
      decreases |pages| - i
    {
      if i + 1 == |pages| {
        assert !Terminated(pages) by {
          if Terminated(pages) {
            var k :| 0 <= k < |pages| && pages[k].nextToken.None?;
          }
        }
        return None;
      }
      FlattenAppend(pages[..i + 1], [pages[i + 1]]);
      assert pages[..i + 1] + [pages[i + 1]] == pages[..i + 2];
      assert [pages[i + 1]][1..] == [];
      i := i + 1;
      acc := acc + pages[i].arns;
    }
    assert Terminated(pages);
    assert FinalIndex(pages) == i;
    r := Some(acc);
  }
}
