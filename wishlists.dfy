/**
 * The wishlist service of services/wishlist.go over an in-memory table of
 * wishlists keyed by id: lookup, filter by owner, and the read-modify-write
 * of the denormalised present count, a Go `uint`.
 */
module Wishlists {
  import opened Common

  /** 2^64: Go's `uint` is 64 bits wide on the platforms the service targets. */
  const UintModulus: int := 0x1_0000_0000_0000_0000
  const MaxUint: int := UintModulus - 1

  newtype Uint = x: int | 0 <= x < 0x1_0000_0000_0000_0000

  /** `x += 1` on a `uint`: wraps from the maximum to zero. */
  function IncUint(x: Uint): (r: Uint)
    ensures x as int < MaxUint ==> r as int == x as int + 1
    ensures x as int == MaxUint ==> r == 0
  {
    ((x as int + 1) % UintModulus) as Uint
  }

  /** `x -= 1` on a `uint`: wraps from zero to the maximum, there being no guard. */
  function DecUint(x: Uint): (r: Uint)
    ensures x > 0 ==> r as int == x as int - 1
    ensures x == 0 ==> r as int == MaxUint
  {
    ((x as int - 1) % UintModulus) as Uint
  }

  /** Increment and decrement undo each other on every `uint`, wrap-around included. */
  lemma IncDecInverse(x: Uint)
    ensures DecUint(IncUint(x)) == x
    ensures IncUint(DecUint(x)) == x
  {
  }

  /**
   * An increase followed by a decrease of the same wishlist restores its
   * count; only the timestamp of the last save remains.
   */
  lemma IncreaseThenDecrease(m0: map<Uuid, Wishlist>, m1: map<Uuid, Wishlist>, m2: map<Uuid, Wishlist>, id: Uuid, t1: Instant, t2: Instant)
    requires id in m0
    requires m1 == m0[id := m0[id].(presentsCount := IncUint(m0[id].presentsCount), updatedAt := t1)]
    requires m2 == m1[id := m1[id].(presentsCount := DecUint(m1[id].presentsCount), updatedAt := t2)]
    ensures m2[id].presentsCount == m0[id].presentsCount
    ensures m2 == m0[id := m0[id].(updatedAt := t2)]
  {
    IncDecInverse(m0[id].presentsCount);
  }

  datatype Settings = Settings(colorScheme: string, showGiftAvailability: bool)

  datatype Location = Location(name: string, link: string, time: Instant)

  /** A `model.Wishlist` row; its presents are a separate table. */
  datatype Wishlist = Wishlist(
    id: Uuid,
    title: string,
    description: string,
    cover: string,
    userId: Uuid,
    settings: Settings,
    location: Location,
    presentsCount: Uint,
    createdAt: Instant,
    updatedAt: Instant)

  /** The Go value `model.Wishlist{ID: id}`: every other field at its zero value. */
  function ZeroWishlist(id: Uuid): Wishlist
  {
    Wishlist(id, "", "", "", NilUuid, Settings("", false), Location("", "", ZeroTime), 0, ZeroTime, ZeroTime)
  }

  /** The errors the store reports (`gorm.ErrRecordNotFound`). */
  datatype StoreError = RecordNotFound

  /** The service's `(error, model.Wishlist)` answer. */
  datatype Reply = Reply(err: Option<StoreError>, wishlist: Wishlist)

  /** The `wishlists` table and the service methods over it. */
  class WishlistStore {
    var wishlists: map<Uuid, Wishlist>

    /** Every row is stored under its own primary key. */
    ghost predicate Valid()
      reads this
    {
      forall id :: id in wishlists ==> wishlists[id].id == id
    }

    constructor (initial: map<Uuid, Wishlist>)
      requires forall id :: id in initial ==> initial[id].id == id
      ensures wishlists == initial && Valid()
    {
      wishlists := initial;
    }

    /**
     * `GetOne`: the stored row when the id is present; otherwise an error and
     * the query struct as it was built, `model.Wishlist{ID: id}`.
     */
    function GetOne(id: Uuid): (r: Reply)
      reads this
      ensures r.err.None? <==> id in wishlists
      ensures r.err.None? ==> r.wishlist == wishlists[id]
      ensures r.err.Some? ==> r.err.value == RecordNotFound && r.wishlist == ZeroWishlist(id)
    {
      if id in wishlists then Reply(None, wishlists[id]) else Reply(Some(RecordNotFound), ZeroWishlist(id))
    }

    /**
     * `GetAll`: the wishlists whose owner is `userId`. A nil owner pointer
     * compares to SQL NULL and matches no row.
     */
    function GetAll(userId: Option<Uuid>): (r: set<Wishlist>)
      reads this
      ensures forall w :: w in r <==> w in wishlists.Values && userId == Some(w.userId)
      ensures userId.None? ==> r == {}
    {
      set w | w in wishlists.Values && userId == Some(w.userId)
    }

    /** Every wishlist `GetAll` reports can be fetched again by its id with `GetOne`. */
    lemma GetAllFoundByGetOne(userId: Uuid, w: Wishlist)
      requires Valid()
      requires w in GetAll(Some(userId))
      ensures GetOne(w.id) == Reply(None, w)
      ensures w.userId == userId
    {
      var k :| k in wishlists && wishlists[k] == w;
      assert k == w.id;
    }

    /**
     * `IncreasePresentsCount`: loads the row, adds one to the count with
     * `uint` wrap-around, and saves it; saving refreshes `UpdatedAt` to `now`.
     * An unknown id gives an error and the zero wishlist.
     */
    method IncreasePresentsCount(id: Uuid, now: Instant) returns (r: Reply)
      requires Valid()
      modifies this
      ensures Valid()
      ensures id !in old(wishlists) ==>
        r == Reply(Some(RecordNotFound), ZeroWishlist(NilUuid)) && wishlists == old(wishlists)
      ensures id in old(wishlists) ==>
        && r.err.None?
        && r.wishlist == old(wishlists)[id].(presentsCount := IncUint(old(wishlists)[id].presentsCount), updatedAt := now)
        && wishlists == old(wishlists)[id := r.wishlist]
    {
      var got := GetOne(id);
      if got.err.Some? {
        return Reply(got.err, ZeroWishlist(NilUuid));
      }
      var w := got.wishlist;
      w := w.(presentsCount := IncUint(w.presentsCount));
      w := w.(updatedAt := now);
      wishlists := wishlists[id := w];
      return Reply(None, w);
    }

    /**
     * `DecreasePresentsCount`: as `IncreasePresentsCount` but subtracting one;
     * nothing stops the count at zero, so zero becomes the largest `uint`.
     */
    method DecreasePresentsCount(id: Uuid, now: Instant) returns (r: Reply)
      requires Valid()
      modifies this
      ensures Valid()
      ensures id !in old(wishlists) ==>
        r == Reply(Some(RecordNotFound), ZeroWishlist(NilUuid)) && wishlists == old(wishlists)
      ensures id in old(wishlists) ==>
        && r.err.None?
        && r.wishlist == old(wishlists)[id].(presentsCount := DecUint(old(wishlists)[id].presentsCount), updatedAt := now)
        && wishlists == old(wishlists)[id := r.wishlist]
      ensures id in old(wishlists) && old(wishlists)[id].presentsCount == 0 ==>
        r.wishlist.presentsCount as int == MaxUint
    {
      var got := GetOne(id);
      if got.err.Some? {
        return Reply(got.err, ZeroWishlist(NilUuid));
      }
      var w := got.wishlist;
      w := w.(presentsCount := DecUint(w.presentsCount));
      w := w.(updatedAt := now);
      wishlists := wishlists[id := w];
      return Reply(None, w);
    }
  }
}
