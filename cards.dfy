/**
 * The in-memory card list of handler/card.go: a package-level slice of cards
 * searched by id, appended to on create and update, and shrunk by
 * swap-with-last on update and delete.
 */
module Cards {
  import opened Common

  /** A `model.Card`. */
  datatype Card = Card(id: string, content: string, createdAt: Instant)

  /**
   * A request body after JSON parsing. A body without a `createdAt` key leaves
   * the field as the handler set it before parsing.
   */
  datatype CardBody = CardBody(id: string, content: string, createdAt: Option<Instant>)

  /** The ways a card handler answers with an error. */
  datatype CardError =
    | BodyUnparseable  // BodyParser failed
    | InvalidCard      // "Couldn't create product" / "Couldn't update product"
    | NoSuchId         // the id is not in the list
    | EmptyContent     // the card found has empty content
    | IndexOutOfRange  // run-time panic on `cards[-1]`, turned into a 500 by the recover middleware

  datatype Outcome<T> = Success(value: T) | Failure(error: CardError)

  /** True when some card in `s` carries `id`. */
  ghost predicate HasId(s: seq<Card>, id: string)
  {
    exists k :: 0 <= k < |s| && s[k].id == id
  }

  /** The position of the last card carrying `id`, or -1 when there is none. */
  function LastIndex(s: seq<Card>, id: string): (r: int)
    ensures -1 <= r < |s|
    ensures r == -1 <==> !HasId(s, id)
    ensures r != -1 ==> s[r].id == id
    ensures forall k :: r < k < |s| ==> s[k].id != id
  {
    if |s| == 0 then -1
    else if s[|s| - 1].id == id then |s| - 1
    else LastIndex(s[..|s| - 1], id)
  }

  /** `s` with its element `i` overwritten by the last one and the last slot dropped. */
  function SwapRemove(s: seq<Card>, i: int): (r: seq<Card>)
    requires 0 <= i < |s|
    ensures |r| == |s| - 1
    ensures forall k :: 0 <= k < |r| && k != i ==> r[k] == s[k]
    ensures i < |r| ==> r[i] == s[|s| - 1]
  {
    s[i := s[|s| - 1]][..|s| - 1]
  }

  /** Swap-with-last removal takes away exactly the one element at `i`. */
  lemma {:induction false} SwapRemoveMultiset(s: seq<Card>, i: int)
    requires 0 <= i < |s|
    ensures multiset(SwapRemove(s, i)) == multiset(s) - multiset{s[i]}
  {
    var n := |s| - 1;
    var r := SwapRemove(s, i);
    var t := s[i := s[n]];
    assert t == r + [s[n]];
    assert multiset(t) == multiset(r) + multiset{s[n]};
    assert multiset(t) == multiset(s) - multiset{s[i]} + multiset{s[n]};
    forall c ensures multiset(r)[c] == (multiset(s) - multiset{s[i]})[c] {
      assert multiset(r)[c] + multiset{s[n]}[c] == multiset(t)[c];
    }
  }

  /** The number of cards in `s` that carry `id`. */
  function CountId(s: seq<Card>, id: string): (n: nat)
    ensures n <= |s|
    ensures n == 0 <==> !HasId(s, id)
  {
    if |s| == 0 then 0
    else CountId(s[..|s| - 1], id) + (if s[|s| - 1].id == id then 1 else 0)
  }

  lemma {:induction false} CountIdAppend(s: seq<Card>, t: seq<Card>, id: string)
    ensures CountId(s + t, id) == CountId(s, id) + CountId(t, id)
  {
    if |t| == 0 {
      assert s + t == s;
    } else {
      assert (s + t)[..|s + t| - 1] == s + t[..|t| - 1];
      CountIdAppend(s, t[..|t| - 1], id);
    }
  }

  /** Removing a card whose id is `id` lowers the number of cards with that id by exactly one. */
  lemma {:induction false} SwapRemoveCount(s: seq<Card>, i: int, id: string)
    requires 0 <= i < |s| && s[i].id == id
    ensures CountId(SwapRemove(s, i), id) == CountId(s, id) - 1
  {
    var n := |s| - 1;
    var r := SwapRemove(s, i);
    if i == n {
      assert s == r + [s[i]];
      CountIdAppend(r, [s[i]], id);
      assert [s[i]][..0] == [];
    } else {
      assert s == s[..i] + [s[i]] + s[i + 1..n] + [s[n]];
      assert r == s[..i] + [s[n]] + s[i + 1..n];
      CountIdAppend(s[..i] + [s[i]] + s[i + 1..n], [s[n]], id);
      CountIdAppend(s[..i] + [s[i]], s[i + 1..n], id);
      CountIdAppend(s[..i], [s[i]], id);
      CountIdAppend(s[..i] + [s[n]], s[i + 1..n], id);
      CountIdAppend(s[..i], [s[n]], id);
      assert [s[i]][..0] == [] && [s[n]][..0] == [];
    }
  }

  /** The package-level `cards` slice and the handlers that use it. */
  class CardStore {
    var cards: seq<Card>

    /** What the handlers keep true: every stored card has an id and some content. */
    ghost predicate Valid()
      reads this
    {
      forall k :: 0 <= k < |cards| ==> cards[k].id != "" && cards[k].content != ""
    }

    /** The slice starts out empty (`make([]model.Card, 0)`). */
    constructor ()
      ensures cards == [] && Valid()
    {
      cards := [];
    }

    /** `findId`: a forward scan that keeps overwriting the index, so the last match wins. */
    method FindId(id: string) returns (r: int)
      ensures r == LastIndex(cards, id)
      ensures r == -1 <==> !HasId(cards, id)
      ensures r != -1 ==> 0 <= r < |cards| && cards[r].id == id
      ensures forall k :: r < k < |cards| ==> cards[k].id != id
    {
      r := -1;
      var i := 0;
      while i < |cards|
        invariant 0 <= i <= |cards|
        invariant r == LastIndex(cards[..i], id)
      {
        assert cards[..i + 1][..i] == cards[..i];
        if cards[i].id == id {
          r := i;
        }
        i := i + 1;
      }
      assert cards[..i] == cards;
    }

    /** `deleteFromCards`: the last card moves into slot `i` and the slice shrinks by one. */
    method DeleteFromCards(i: int)
      requires 0 <= i < |cards|
      modifies this
      ensures cards == SwapRemove(old(cards), i)
    {
      cards := cards[i := cards[|cards| - 1]];
      cards := cards[..|cards| - 1];
    }

    /** `GetAllCards`: the handler answers with the whole slice. */
    method GetAllCards() returns (r: seq<Card>)
      ensures r == cards
    {
      r := cards;
    }

    /**
     * `GetCard` as written: a missing id makes `findId` return -1 and the
     * handler then indexes `cards[-1]`, a run-time panic.
     */
    method GetCard(id: string) returns (r: Outcome<Card>)
      ensures r == Failure(IndexOutOfRange) <==> !HasId(cards, id)
      ensures r.Success? ==> HasId(cards, id) && r.value == cards[LastIndex(cards, id)]
      ensures r.Success? <==> HasId(cards, id) && cards[LastIndex(cards, id)].content != ""
      ensures HasId(cards, id) && cards[LastIndex(cards, id)].content == "" ==> r == Failure(EmptyContent)
      ensures Valid() ==> r != Failure(EmptyContent)
    {
      var i := FindId(id);
      if i == -1 {
        return Failure(IndexOutOfRange);
      }
      var card := cards[i];
      if card.content == "" {
        return Failure(EmptyContent);
      }
      return Success(card);
    }

    /**
     * `GetCard` as its error message says it was meant to behave: a missing
     * id is reported as an error instead of indexing position -1.
     */
    method GetCardIntended(id: string) returns (r: Outcome<Card>)
      ensures r != Failure(IndexOutOfRange)
      ensures r == Failure(NoSuchId) <==> !HasId(cards, id)
      ensures r.Success? ==> r.value.id == id && r.value == cards[LastIndex(cards, id)]
      ensures Valid() ==> (r.Success? <==> HasId(cards, id))
    {
      var i := FindId(id);
      if i == -1 {
        return Failure(NoSuchId);
      }
      var card := cards[i];
      if card.content == "" {
        return Failure(EmptyContent);
      }
      return Success(card);
    }

    /**
     * `CreateCard`: the creation time is set to `now` before the body is
     * parsed, so a body carrying `createdAt` overrides it. An empty id or
     * content is refused; a duplicate id is not.
     */
    method CreateCard(body: Option<CardBody>, now: Instant) returns (r: Outcome<Card>)
      requires Valid()
      modifies this
      ensures Valid()
      ensures body.None? ==> r == Failure(BodyUnparseable)
      ensures body.Some? && (body.value.content == "" || body.value.id == "") ==> r == Failure(InvalidCard)
      ensures r.Success? <==> body.Some? && body.value.content != "" && body.value.id != ""
      ensures r.Success? ==>
        && r.value.id == body.value.id && r.value.content == body.value.content
        && r.value.createdAt == (if body.value.createdAt.Some? then body.value.createdAt.value else now)
        && cards == old(cards) + [r.value]
      ensures r.Failure? ==> cards == old(cards)
    {
      if body.None? {
        return Failure(BodyUnparseable);
      }
      var createdAt := if body.value.createdAt.Some? then body.value.createdAt.value else now;
      var card := Card(body.value.id, body.value.content, createdAt);
      if card.content == "" || card.id == "" {
        return Failure(InvalidCard);
      }
      cards := cards + [card];
      return Success(card);
    }

    /**
     * `UpdateCard`: the old card (the last one with the id) is removed by
     * swap-with-last and the new one, with the path id and the time `now`, is
     * appended at the end.
     */
    method UpdateCard(id: string, body: Option<CardBody>, now: Instant) returns (r: Outcome<Card>)
      requires Valid()
      modifies this
      ensures Valid()
      ensures !HasId(old(cards), id) ==> r == Failure(NoSuchId)
      ensures HasId(old(cards), id) && body.None? ==> r == Failure(BodyUnparseable)
      ensures HasId(old(cards), id) && body.Some? && body.value.content == "" ==> r == Failure(InvalidCard)
      ensures r.Success? <==> HasId(old(cards), id) && body.Some? && body.value.content != ""
      ensures r.Success? ==>
        && r.value == Card(id, body.value.content, now)
        && cards == SwapRemove(old(cards), LastIndex(old(cards), id)) + [r.value]
        && |cards| == |old(cards)|
        && multiset(cards) == multiset(old(cards)) - multiset{old(cards)[LastIndex(old(cards), id)]} + multiset{r.value}
      ensures r.Failure? ==> cards == old(cards)
    {
      var i := FindId(id);
      if i == -1 {
        return Failure(NoSuchId);
      }
      if body.None? {
        return Failure(BodyUnparseable);
      }
      if body.value.content == "" {
        return Failure(InvalidCard);
      }
      var card := Card(id, body.value.content, now);
      SwapRemoveMultiset(cards, i);
      DeleteFromCards(i);
      cards := cards + [card];
      return Success(card);
    }

    /** `DeleteCard`: removes the last card with the id and answers with the remaining slice. */
    method DeleteCard(id: string) returns (r: Outcome<seq<Card>>)
      requires Valid()
      modifies this
      ensures Valid()
      ensures r.Failure? <==> !HasId(old(cards), id)
      ensures r.Failure? ==> r.error == NoSuchId && cards == old(cards)
      ensures r.Success? ==>
        && cards == SwapRemove(old(cards), LastIndex(old(cards), id))
        && r.value == cards
        && |cards| == |old(cards)| - 1
        && multiset(cards) == multiset(old(cards)) - multiset{old(cards)[LastIndex(old(cards), id)]}
        && CountId(cards, id) == CountId(old(cards), id) - 1
    {
      var i := FindId(id);
      if i == -1 {
        return Failure(NoSuchId);
      }
      SwapRemoveMultiset(cards, i);
      SwapRemoveCount(cards, i, id);
      DeleteFromCards(i);
      return Success(cards);
    }
  }
}
