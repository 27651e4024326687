/**
 * The present handlers of handler/present.go over an in-memory `presents`
 * table: creation under an existing wishlist, a field-wise partial update,
 * deletion, listing, and the reserve/release flag. Every save goes through
 * the ORM, which by convention refreshes `UpdatedAt` to the current time.
 */
module Presents {
  import opened Common
  import Wishlists

  /** A `model.Present` row. */
  datatype Present = Present(
    id: Uuid,
    title: string,
    description: string,
    reserved: bool,
    cover: string,
    link: string,
    createdAt: Instant,
    updatedAt: Instant,
    wishlistId: Uuid)

  /**
   * A create or update request body after parsing (`model.CreatePresent`):
   * the text fields and whether a cover file was attached.
   */
  datatype PresentBody = PresentBody(title: string, description: string, link: string, hasFile: bool)

  /** The ways a present handler answers with an error. */
  datatype PresentError =
    | InvalidInput      // the body could not be parsed
    | InvalidUuid       // the path segment is not a UUID
    | ValidationFailed  // the validator refused the body
    | WishlistNotFound  // the wishlist named in the path does not exist
    | UploadFailed      // no cover file, or the object store refused it
    | NotFound          // no present with that id
    | AlreadyReserved   // someone reserved the present before
    | CreateFailed      // the database refused the new row
    | DeleteFailed      // the database refused the delete

  datatype Outcome<T> = Success(value: T) | Failure(error: PresentError)

  /** The answer of a handler together with the table it leaves behind. */
  datatype Transition<T> = Transition(outcome: Outcome<T>, store: map<Uuid, Present>)

  /** Every row is stored under its own primary key. */
  ghost predicate KeysMatch(m: map<Uuid, Present>)
  {
    forall id :: id in m ==> m[id].id == id
  }

  /**
   * `Reserve`: a missing present is not found, a reserved one is refused, and
   * otherwise the flag goes up and the row is saved at `now`; no other row and
   * no other field changes.
   */
  function ReserveTransition(m: map<Uuid, Present>, id: Uuid, now: Instant): (t: Transition<bool>)
    ensures id !in m ==> t == Transition(Failure(NotFound), m)
    ensures id in m && m[id].reserved ==> t == Transition(Failure(AlreadyReserved), m)
    ensures t.outcome.Success? <==> id in m && !m[id].reserved
    ensures t.outcome.Success? ==>
      && t.outcome.value
      && t.store.Keys == m.Keys
      && t.store[id].reserved
      && t.store[id] == m[id].(reserved := true, updatedAt := now)
      && forall k :: k in m && k != id ==> t.store[k] == m[k]
  {
    if id !in m then Transition(Failure(NotFound), m)
    else if m[id].reserved then Transition(Failure(AlreadyReserved), m)
    else Transition(Success(true), m[id := m[id].(reserved := true, updatedAt := now)])
  }

  /**
   * `Release`: a missing present is not found; any other one has its flag
   * lowered, whatever it was, and is saved at `now`.
   */
  function ReleaseTransition(m: map<Uuid, Present>, id: Uuid, now: Instant): (t: Transition<bool>)
    ensures id !in m ==> t == Transition(Failure(NotFound), m)
    ensures t.outcome.Success? <==> id in m
    ensures t.outcome.Success? ==>
      && t.outcome.value
      && t.store.Keys == m.Keys
      && !t.store[id].reserved
      && t.store[id] == m[id].(reserved := false, updatedAt := now)
      && forall k :: k in m && k != id ==> t.store[k] == m[k]
  {
    if id !in m then Transition(Failure(NotFound), m)
    else Transition(Success(true), m[id := m[id].(reserved := false, updatedAt := now)])
  }

  /** A second reservation of the same present is refused and changes nothing. */
  lemma ReserveTwiceRefused(m: map<Uuid, Present>, id: Uuid, t1: Instant, t2: Instant)
    requires ReserveTransition(m, id, t1).outcome.Success?
    ensures var m1 := ReserveTransition(m, id, t1).store;
      ReserveTransition(m1, id, t2) == Transition(Failure(AlreadyReserved), m1)
  {
  }

  /** Releasing twice at the same instant leaves what releasing once leaves. */
  lemma ReleaseIdempotent(m: map<Uuid, Present>, id: Uuid, now: Instant)
    ensures var t := ReleaseTransition(m, id, now);
      ReleaseTransition(t.store, id, now) == t
  {
    if id in m {
      var m1 := m[id := m[id].(reserved := false, updatedAt := now)];
      assert m1[id := m1[id].(reserved := false, updatedAt := now)] == m1;
    }
  }

  /** Reserving and then releasing a free present gives back the table, apart from the save time. */
  lemma ReserveThenRelease(m: map<Uuid, Present>, id: Uuid, t1: Instant, t2: Instant)
    requires id in m && !m[id].reserved
    ensures ReleaseTransition(ReserveTransition(m, id, t1).store, id, t2).store == m[id := m[id].(updatedAt := t2)]
  {
  }

  /** Both transitions keep every row under its own key. */
  lemma TransitionsKeepKeys(m: map<Uuid, Present>, id: Uuid, now: Instant)
    requires KeysMatch(m)
    ensures KeysMatch(ReserveTransition(m, id, now).store)
    ensures KeysMatch(ReleaseTransition(m, id, now).store)
  {
  }

  /**
   * The field merge of `Update`: the title, description and link are taken
   * from the body only when non-empty, the cover only when a new URL came
   * back from an upload; the flag, the ids and the creation time stay; the
   * save sets `UpdatedAt`.
   */
  function Merge(p: Present, body: PresentBody, cover: Option<string>, now: Instant): (q: Present)
    ensures q.title == if body.title != "" then body.title else p.title
    ensures q.description == if body.description != "" then body.description else p.description
    ensures q.link == if body.link != "" then body.link else p.link
    ensures q.cover == if cover.Some? then cover.value else p.cover
    ensures q.reserved == p.reserved && q.id == p.id && q.wishlistId == p.wishlistId
    ensures q.createdAt == p.createdAt && q.updatedAt == now
  {
    var p1 := if body.title != "" then p.(title := body.title) else p;
    var p2 := if body.description != "" then p1.(description := body.description) else p1;
    var p3 := if cover.Some? then p2.(cover := cover.value) else p2;
    var p4 := if body.link != "" then p3.(link := body.link) else p3;
    p4.(updatedAt := now)
  }

  /** Applying the same update twice is the same as applying it once. */
  lemma MergeIdempotent(p: Present, body: PresentBody, cover: Option<string>, now: Instant)
    ensures Merge(Merge(p, body, cover, now), body, cover, now) == Merge(p, body, cover, now)
  {
  }

  /** An update with no field and no file only refreshes the save time. */
  lemma MergeEmptyBody(p: Present, now: Instant)
    ensures Merge(p, PresentBody("", "", "", false), None, now) == p.(updatedAt := now)
  {
  }

  /** The `presents` table and the handlers that change it. */
  class PresentStore {
    var presents: map<Uuid, Present>

    ghost predicate Valid()
      reads this
    {
      KeysMatch(presents)
    }

    constructor (initial: map<Uuid, Present>)
      requires KeysMatch(initial)
      ensures presents == initial && Valid()
    {
      presents := initial;
    }

    /**
     * `Create`: parses the body and the wishlist id, runs the validator,
     * requires the wishlist to exist and the cover upload to succeed, then
     * inserts an unreserved present with the fresh id `newId`. The wishlist's
     * present count is not touched.
     */
    method Create(wishlistId: Option<Uuid>, body: Option<PresentBody>, validatorAccepts: bool,
                  wishlists: Wishlists.WishlistStore, upload: Option<string>, newId: Uuid, now: Instant)
      returns (r: Outcome<Present>)
      requires Valid()
      modifies this
      ensures Valid()
      ensures body.None? ==> r == Failure(InvalidInput)
      ensures body.Some? && wishlistId.None? ==> r == Failure(InvalidUuid)
      ensures body.Some? && wishlistId.Some? && !validatorAccepts ==> r == Failure(ValidationFailed)
      ensures body.Some? && wishlistId.Some? && validatorAccepts && wishlistId.value !in wishlists.wishlists ==>
        r == Failure(WishlistNotFound)
      ensures (body.Some? && wishlistId.Some? && validatorAccepts && wishlistId.value in wishlists.wishlists
               && upload.None?) ==>
        r == Failure(UploadFailed)
      ensures (body.Some? && wishlistId.Some? && validatorAccepts && wishlistId.value in wishlists.wishlists
               && upload.Some? && newId in old(presents)) ==>
        r == Failure(CreateFailed)
      ensures r.Success? <==>
        && body.Some? && wishlistId.Some? && validatorAccepts && wishlistId.value in wishlists.wishlists
        && upload.Some? && newId !in old(presents)
      ensures r.Success? ==>
        && r.value == Present(newId, body.value.title, body.value.description, false, upload.value,
                              body.value.link, now, now, wishlistId.value)
        && presents == old(presents)[newId := r.value]
      ensures r.Failure? ==> presents == old(presents)
    {
      if body.None? {
        return Failure(InvalidInput);
      }
      if wishlistId.None? {
        return Failure(InvalidUuid);
      }
      if !validatorAccepts {
        return Failure(ValidationFailed);
      }
      var found := wishlists.GetOne(wishlistId.value);
      if found.err.Some? {
        return Failure(WishlistNotFound);
      }
      if upload.None? {
        return Failure(UploadFailed);
      }
      var present := Present(newId, body.value.title, body.value.description, false, upload.value,
                             body.value.link, now, now, wishlistId.value);
      if newId in presents {
        return Failure(CreateFailed);
      }
      presents := presents[newId := present];
      return Success(present);
    }

    /**
     * `GetAll`: the presents of a wishlist and that wishlist's colour scheme;
     * the wishlist itself must exist.
     */
    method GetAll(wishlistId: Option<Uuid>, wishlists: Wishlists.WishlistStore)
      returns (r: Outcome<(set<Present>, string)>)
      ensures wishlistId.None? ==> r == Failure(InvalidUuid)
      ensures wishlistId.Some? && wishlistId.value !in wishlists.wishlists ==> r == Failure(NotFound)
      ensures r.Success? <==> wishlistId.Some? && wishlistId.value in wishlists.wishlists
      ensures r.Success? ==>
        && (forall p :: p in r.value.0 <==> p in presents.Values && p.wishlistId == wishlistId.value)
        && r.value.1 == wishlists.wishlists[wishlistId.value].settings.colorScheme
    {
      if wishlistId.None? {
        return Failure(InvalidUuid);
      }
      var ps := set p | p in presents.Values && p.wishlistId == wishlistId.value;
      var found := wishlists.GetOne(wishlistId.value);
      if found.err.Some? {
        return Failure(NotFound);
      }
      return Success((ps, found.wishlist.settings.colorScheme));
    }

    /**
     * `Delete`: removes the row if there is one; a missing id is not an error.
     * The all-zero UUID leaves the primary-key condition out of the query, and
     * the ORM refuses a delete without a condition.
     */
    method Delete(id: Option<Uuid>) returns (r: Outcome<bool>)
      requires Valid()
      modifies this
      ensures Valid()
      ensures id.None? ==> r == Failure(InvalidUuid) && presents == old(presents)
      ensures id == Some(NilUuid) ==> r == Failure(DeleteFailed) && presents == old(presents)
      ensures id.Some? && id.value != NilUuid ==> r == Success(true) && presents == old(presents) - {id.value}
      ensures r.Success? ==> id.Some? && id.value !in presents
    {
      if id.None? {
        return Failure(InvalidUuid);
      }
      if id.value == NilUuid {
        return Failure(DeleteFailed);
      }
      presents := presents - {id.value};
      return Success(true);
    }

    /**
     * `Update`: loads the present, parses the body, merges the non-empty
     * fields and, when a file is attached, the uploaded cover; a failed upload
     * answers with an error before anything is saved.
     */
    method Update(id: Option<Uuid>, body: Option<PresentBody>, upload: Option<string>, now: Instant)
      returns (r: Outcome<Present>)
      requires Valid()
      modifies this
      ensures Valid()
      ensures id.None? ==> r == Failure(InvalidUuid)
      ensures id.Some? && id.value !in old(presents) ==> r == Failure(NotFound)
      ensures id.Some? && id.value in old(presents) && body.None? ==> r == Failure(InvalidInput)
      ensures id.Some? && id.value in old(presents) && body.Some? && body.value.hasFile && upload.None? ==>
        r == Failure(UploadFailed)
      ensures r.Success? <==>
        id.Some? && id.value in old(presents) && body.Some? && (body.value.hasFile ==> upload.Some?)
      ensures r.Success? ==>
        && r.value == Merge(old(presents)[id.value], body.value,
                            if body.value.hasFile then upload else None, now)
        && presents == old(presents)[id.value := r.value]
      ensures r.Failure? ==> presents == old(presents)
    {
      if id.None? {
        return Failure(InvalidUuid);
      }
      if id.value !in presents {
        return Failure(NotFound);
      }
      var present := presents[id.value];
      if body.None? {
        return Failure(InvalidInput);
      }
      var cover: Option<string> := None;
      if body.value.hasFile {
        if upload.None? {
          return Failure(UploadFailed);
        }
        cover := upload;
      }
      present := Merge(present, body.value, cover, now);
      presents := presents[id.value := present];
      return Success(present);
    }

    /** `Reserve`, from the path segment. */
    method Reserve(id: Option<Uuid>, now: Instant) returns (r: Outcome<bool>)
      requires Valid()
      modifies this
      ensures Valid()
      ensures id.None? ==> r == Failure(InvalidUuid) && presents == old(presents)
      ensures id.Some? ==>
        r == ReserveTransition(old(presents), id.value, now).outcome
        && presents == ReserveTransition(old(presents), id.value, now).store
    {
      if id.None? {
        return Failure(InvalidUuid);
      }
      if id.value !in presents {
        return Failure(NotFound);
      }
      var present := presents[id.value];
      if present.reserved {
        return Failure(AlreadyReserved);
      }
      present := present.(reserved := true);
      presents := presents[id.value := present.(updatedAt := now)];
      return Success(true);
    }

    /** `Release`, from the path segment. */
    method Release(id: Option<Uuid>, now: Instant) returns (r: Outcome<bool>)
      requires Valid()
      modifies this
      ensures Valid()
      ensures id.None? ==> r == Failure(InvalidUuid) && presents == old(presents)
      ensures id.Some? ==>
        r == ReleaseTransition(old(presents), id.value, now).outcome
        && presents == ReleaseTransition(old(presents), id.value, now).store
    {
      if id.None? {
        return Failure(InvalidUuid);
      }
      if id.value !in presents {
        return Failure(NotFound);
      }
      var present := presents[id.value];
      present := present.(reserved := false);
      presents := presents[id.value := present.(updatedAt := now)];
      return Success(true);
    }
  }
}
