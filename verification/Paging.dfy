/** Endpoints that list things in the order of their ids and serve one page after a cursor. */
module Paging {
  import opened Options

  ghost predicate Ascending<T(!new)>(listing: seq<T>, idOf: T -> nat) {
    forall j, k :: 0 <= j < k < |listing| ==> idOf(listing[j]) < idOf(listing[k])
  }

  /** What comes after the cursor. */
  function After<T>(listing: seq<T>, idOf: T -> nat, after: Option<nat>): seq<T> {
    if listing == [] || after.None? || after.value < idOf(listing[0]) then listing
    else After(listing[1..], idOf, after)
  }

  function PageAfter<T>(listing: seq<T>, idOf: T -> nat, after: Option<nat>, limit: nat): (page: seq<T>)
    ensures |page| <= limit
  {
    var rest := After(listing, idOf, after);
    if |rest| <= limit then rest else rest[..limit]
  }

  lemma {:induction false} AfterIsRest<T(!new)>(listing: seq<T>, idOf: T -> nat, n: nat)
    requires Ascending(listing, idOf) && 0 < n <= |listing|
    ensures After(listing, idOf, Some(idOf(listing[n - 1]))) == listing[n..]
    decreases n
  {
    if n > 1 {
      AfterIsRest(listing[1..], idOf, n - 1);
      assert listing[1..][n - 2] == listing[n - 1];
      assert listing[1..][n - 1..] == listing[n..];
    } else if |listing| > 1 {
      assert idOf(listing[1..][0]) > idOf(listing[0]);
    }
  }

  function PageEnd(length: nat, n: nat, limit: nat): nat {
    if n + limit < length then n + limit else length
  }

  /** With the last id so far as the cursor, the next page is the next stretch of the listing. */
  lemma NextPage<T(!new)>(listing: seq<T>, idOf: T -> nat, n: nat, after: Option<nat>, limit: nat)
    requires Ascending(listing, idOf) && n <= |listing|
    requires after == if n == 0 then None else Some(idOf(listing[n - 1]))
    ensures var end := PageEnd(|listing|, n, limit);
            && PageAfter(listing, idOf, after, limit) == listing[n..end]
            && listing[..n] + listing[n..end] == listing[..end]
  {
    if n > 0 {
      AfterIsRest(listing, idOf, n);
    }
  }
}
