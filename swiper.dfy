/** The card swiper's reading of a drag and the deck it walks through: the
    parent's pending list, from which every swipe removes the swiped card by
    id, and the swiper's own `currentIndex`, which every swipe advances. */
module Swiper {
  import opened Options
  import opened Seqs
  import opened Ledger

  /** What a drag does when it ends. */
  datatype Direction = Right | Left | Stay

  /** `handleDragEnd`'s threshold test: more than 100 pixels to the right
      accepts, more than 100 to the left opens the editor, anything within
      the threshold (the threshold itself included) does nothing. */
  function Classify(offset: real): (d: Direction)
    ensures d == Right <==> offset > 100.0
    ensures d == Left <==> offset < -100.0
    ensures d == Stay <==> -100.0 <= offset <= 100.0
  {
    if offset > 100.0 then Right
    else if offset < -100.0 then Left
    else Stay
  }

  /** The pending list the swiper is given and its own position in it. */
  datatype Deck = Deck(pending: seq<Transaction>, index: nat)

  /** The card on screen, `transactions[currentIndex]`; none means the
      "All Done!" panel. */
  function Shown(d: Deck): (r: Option<Transaction>)
    ensures r.None? <==> d.index >= |d.pending|
    ensures r.Some? ==> r.value in d.pending
  {
    if d.index < |d.pending| then Some(d.pending[d.index]) else None
  }

  /** One swipe, either way, as written: the parent drops the shown card's id
      from the pending list and the swiper moves its index one further. A
      deck showing "All Done!" has no card to drag. */
  function Swipe(d: Deck): Deck
  {
    if d.index < |d.pending| then Deck(RemoveId(d.pending, d.pending[d.index].id), d.index + 1)
    else d
  }

  /** The deck after a drag that ends at `offset`: unchanged within the
      threshold, one swipe beyond it; a deck whose last card went is
      unmounted, and a remounted swiper starts at index 0. */
  function AfterDrag(d: Deck, offset: real): Deck
  {
    if Classify(offset) == Stay then d
    else if Swipe(d).pending == [] then Deck([], 0)
    else Swipe(d)
  }

  /** `k` swipes from `d`. */
  function Run(d: Deck, k: nat): Deck
  {
    if k == 0 then d else Swipe(Run(d, k - 1))
  }

  predicate DistinctIds(txs: seq<Transaction>)
  {
    forall i, j :: 0 <= i < j < |txs| ==> txs[i].id != txs[j].id
  }

  /** The cards at odd positions `1, 3, …, 2k - 1` of `p`. */
  function Odds(p: seq<Transaction>, k: nat): (r: seq<Transaction>)
    requires 2 * k <= |p|
    ensures |r| == k
    ensures forall i :: 0 <= i < k ==> r[i] == p[2 * i + 1]
  {
    seq(k, i requires 0 <= i < k => p[2 * i + 1])
  }

  lemma OddsSnoc(p: seq<Transaction>, k: nat)
    requires 2 * k + 2 <= |p|
    ensures Odds(p, k + 1) == Odds(p, k) + [p[2 * k + 1]]
  {
  }

  /** The odd-position cards before `2j` followed by the list from `2j` on
      still have distinct ids. */
  lemma OddsTailDistinct(p: seq<Transaction>, j: nat)
    requires DistinctIds(p) && 2 * j <= |p|
    ensures DistinctIds(Odds(p, j) + p[2 * j..])
  {
    var q := Odds(p, j) + p[2 * j..];
    forall a, b | 0 <= a < b < |q| ensures q[a].id != q[b].id {
      var ia := if a < j then 2 * a + 1 else a + j;
      var ib := if b < j then 2 * b + 1 else b + j;
      assert q[a] == p[ia];
      assert q[b] == p[ib];
      assert ia < ib;
    }
  }

  /** The deck after `k` swipes, as written: the pending list has lost the
      cards at even positions `0, 2, …, 2k - 2` and kept the odd ones, and
      the index is `k`, so the card on screen is the one at position `2k`. */
  lemma {:induction false} SkipAhead(p: seq<Transaction>, k: nat)
    requires DistinctIds(p) && 2 * k <= |p|
    ensures Run(Deck(p, 0), k) == Deck(Odds(p, k) + p[2 * k..], k)
  {
    if k > 0 {
      var j := k - 1;
      var o := Odds(p, j);
      var q := o + p[2 * j..];
      assert q[j] == p[2 * j];
      assert q[..j] + q[j + 1..] == Odds(p, k) + p[2 * k..] by {
        assert q[..j] == o;
        assert q[j + 1..] == p[2 * j + 1..];
        OddsSnoc(p, j);
        assert p[2 * j + 1..] == [p[2 * j + 1]] + p[2 * k..];
      }
      OddsTailDistinct(p, j);
      RemoveIdAt(q, j);
      SkipAhead(p, j);
    }
  }

  /** As written, the cards shown are those at positions 0, 2, 4, …: after
      `k` swipes the card on screen is the one at position `2k`, and the card
      at position `2k - 1` is skipped although it is still pending. */
  lemma ShownAfterSwipes(p: seq<Transaction>, k: nat)
    requires DistinctIds(p) && 0 < k && 2 * k < |p|
    ensures Shown(Run(Deck(p, 0), k)) == Some(p[2 * k])
    ensures p[2 * k - 1] in Run(Deck(p, 0), k).pending
  {
    SkipAhead(p, k);
    var q := Odds(p, k) + p[2 * k..];
    assert q[k - 1] == p[2 * k - 1];
  }

  /** As written, a batch of `2m` cards reaches "All Done!" after `m` swipes
      with the `m` odd-position cards still pending, none of them ever shown. */
  lemma EvenBatchStopsHalfway(p: seq<Transaction>, m: nat)
    requires DistinctIds(p) && |p| == 2 * m
    ensures Shown(Run(Deck(p, 0), m)).None?
    ensures Run(Deck(p, 0), m).pending == Odds(p, m)
    ensures |Run(Deck(p, 0), m).pending| == m
  {
    assert Odds(p, m) + p[2 * m..] == Odds(p, m);
    SkipAhead(p, m);
  }

  // ------------------------------------------------ the intended deck

  /** One swipe as intended: the swiped card leaves the pending list and the
      next one takes its place on screen, so the index stays where it is. */
  function SwipeHead(d: Deck): Deck
  {
    if d.index < |d.pending| then Deck(RemoveId(d.pending, d.pending[d.index].id), d.index)
    else d
  }

  function RunHead(d: Deck, k: nat): Deck
  {
    if k == 0 then d else SwipeHead(RunHead(d, k - 1))
  }

  /** With the index held at the head, every card is reviewed once, in list
      order: after `k` swipes the remaining cards are the list from position
      `k` on, the card on screen is the one at position `k`, and "All Done!"
      appears exactly when every card has been swiped. */
  lemma {:induction false} HeadFirstReviewsAll(p: seq<Transaction>, k: nat)
    requires DistinctIds(p) && k <= |p|
    ensures RunHead(Deck(p, 0), k) == Deck(p[k..], 0)
    ensures Shown(RunHead(Deck(p, 0), k)) == if k < |p| then Some(p[k]) else None
  {
    if k > 0 {
      HeadFirstReviewsAll(p, k - 1);
      var q := p[k - 1..];
      assert DistinctIds(q) by {
        forall a, b | 0 <= a < b < |q| ensures q[a].id != q[b].id {
          assert q[a] == p[a + k - 1] && q[b] == p[b + k - 1];
        }
      }
      RemoveIdAt(q, 0);
      assert q[1..] == p[k..];
    }
  }
}
