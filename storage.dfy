/** The in-memory data layer of the server (`MemStorage` in server/storage.ts):
    two maps keyed by integer id, users and notes, and two id counters that
    start at 1 and are post-incremented on every creation.

    Iteration order. `Array.from(map.values())` visits a JavaScript `Map` in
    insertion order. Ids are handed out in increasing order and never
    reused, `set` on a key that is already present keeps its position, and
    `delete` removes the key; so insertion order is ascending id order, and
    the scans below walk the ids from 1 up to the counter. */
module Storage {
  import opened JsRuntime

  /** `Date.getTime()`: milliseconds since the epoch. The clock is read by
      the caller and passed in. */
  type Timestamp = int

  /** What a caller supplies to `createUser`; `None` is a missing or null field. */
  datatype InsertUser = InsertUser(
    name: string,
    email: string,
    avatar: Option<string>,
    provider: Option<string>,
    providerId: Option<string>)

  datatype User = User(
    id: int,
    name: string,
    email: string,
    avatar: Option<string>,
    provider: string,
    providerId: Option<string>,
    createdAt: Timestamp)

  /** What a caller supplies to `createNote`. */
  datatype InsertNote = InsertNote(userId: int, title: string, content: string)

  datatype Note = Note(
    id: int,
    userId: int,
    title: string,
    content: string,
    createdAt: Timestamp,
    updatedAt: Timestamp)

  /** A `Partial<InsertNote>`: only the supplied fields are overwritten. */
  datatype NotePatch = NotePatch(userId: Option<int>, title: Option<string>, content: Option<string>)

  /** Every user sits under its own id, and the ids in use are exactly
      1 .. bound - 1 (users are never deleted). */
  ghost predicate UsersKeyedById(users: map<int, User>, bound: int)
  {
    && (forall id :: id in users ==> 1 <= id < bound && users[id].id == id)
    && (forall id :: 1 <= id < bound ==> id in users)
  }

  /** Every note sits under its own id, below the next id to hand out. */
  ghost predicate NotesKeyedById(notes: map<int, Note>, bound: int)
  {
    forall id :: id in notes ==> 1 <= id < bound && notes[id].id == id
  }

  // ---------------------------------------------------------------------
  // Lookup by email: `Array.from(users.values()).find(u => u.email === email)`
  // ---------------------------------------------------------------------

  /** The first user, in ascending id order from `from` to `to`, whose email
      is `email`. */
  function ScanByEmail(users: map<int, User>, from: int, to: int, email: string): (r: Option<User>)
    decreases to - from
    requires forall id :: id in users ==> users[id].id == id
    ensures r.Some? ==> && from <= r.value.id < to && r.value.id in users
                        && users[r.value.id] == r.value && r.value.email == email
    ensures r.Some? ==> forall id :: from <= id < r.value.id && id in users ==> users[id].email != email
    ensures r.None? ==> forall id :: from <= id < to && id in users ==> users[id].email != email
  {
    if to <= from then None
    else if from in users && users[from].email == email then Some(users[from])
    else ScanByEmail(users, from + 1, to, email)
  }

  // ---------------------------------------------------------------------
  // Listing: `Array.from(notes.values()).filter(n => n.userId === userId)
  //             .sort((a, b) => b.createdAt - a.createdAt)`
  // ---------------------------------------------------------------------

  /** The notes with ids from `from` to `to` that belong to `userId`, in
      ascending id order. */
  function OwnedBy(notes: map<int, Note>, from: int, to: int, userId: int): (r: seq<Note>)
    decreases to - from
    requires forall id :: id in notes ==> notes[id].id == id
    ensures forall i :: 0 <= i < |r| ==>
      && from <= r[i].id < to && r[i].id in notes && notes[r[i].id] == r[i] && r[i].userId == userId
    ensures forall id :: from <= id < to && id in notes && notes[id].userId == userId ==> notes[id] in r
    ensures IdsAscending(r)
  {
    if to <= from then []
    else if from in notes && notes[from].userId == userId then
      var rest := OwnedBy(notes, from + 1, to, userId);
      [notes[from]] + rest
    else OwnedBy(notes, from + 1, to, userId)
  }

  predicate IdsAscending(s: seq<Note>)
  {
    forall i, j :: 0 <= i < j < |s| ==> s[i].id < s[j].id
  }

  /** Newest first: `createdAt` never increases along `s`. */
  predicate NewestFirst(s: seq<Note>)
  {
    forall i, j :: 0 <= i < j < |s| ==> s[i].createdAt >= s[j].createdAt
  }

  /** The order in which the store lists two notes: the newer first and,
      of two created at the same instant, the one inserted first. */
  predicate ListedBefore(a: Note, b: Note)
  {
    a.createdAt > b.createdAt || (a.createdAt == b.createdAt && a.id < b.id)
  }

  predicate InListingOrder(s: seq<Note>)
  {
    forall i, j :: 0 <= i < j < |s| ==> ListedBefore(s[i], s[j])
  }

  /** Puts `x` in front of the first note of `s` that is not newer than it. */
  function InsertNewestFirst(x: Note, s: seq<Note>): (r: seq<Note>)
    ensures multiset(r) == multiset(s) + multiset{x}
    ensures forall y :: y in r <==> y == x || y in s
  {
    if s == [] || s[0].createdAt <= x.createdAt then [x] + s
    else
      assert s == [s[0]] + s[1..];
      [s[0]] + InsertNewestFirst(x, s[1..])
  }

  lemma {:induction false} InsertKeepsNewestFirst(x: Note, s: seq<Note>)
    requires NewestFirst(s)
    ensures NewestFirst(InsertNewestFirst(x, s))
  {
    if s != [] && s[0].createdAt > x.createdAt {
      var t := InsertNewestFirst(x, s[1..]);
      InsertKeepsNewestFirst(x, s[1..]);
      forall j | 0 <= j < |t|
        ensures s[0].createdAt >= t[j].createdAt
      {
        assert t[j] in t;
        if t[j] != x {
          var k :| 0 <= k < |s[1..]| && s[1..][k] == t[j];
          assert s[k + 1] == t[j];
        }
      }
      assert forall j :: 0 < j < |t| + 1 ==> ([s[0]] + t)[j] == t[j - 1];
    }
  }

  /** `sort` with the comparator `b.createdAt - a.createdAt`. ECMAScript
      requires `Array.prototype.sort` to be stable, so notes created at the
      same instant keep their relative order; an insertion sort has the
      same result. */
  function SortNewestFirst(s: seq<Note>): (r: seq<Note>)
    ensures multiset(r) == multiset(s)
    ensures NewestFirst(r)
  {
    if s == [] then []
    else
      assert s == [s[0]] + s[1..];
      var t := SortNewestFirst(s[1..]);
      InsertKeepsNewestFirst(s[0], t);
      InsertNewestFirst(s[0], t)
  }

  lemma {:induction false} InsertKeepsListingOrder(x: Note, s: seq<Note>)
    requires InListingOrder(s)
    requires forall y :: y in s ==> x.id < y.id
    ensures InListingOrder(InsertNewestFirst(x, s))
  {
    if s != [] && s[0].createdAt > x.createdAt {
      var t := InsertNewestFirst(x, s[1..]);
      assert s[0] in s;
      InsertKeepsListingOrder(x, s[1..]);
      forall j | 0 <= j < |t|
        ensures ListedBefore(s[0], t[j])
      {
        assert t[j] in t;
        if t[j] != x {
          var k :| 0 <= k < |s[1..]| && s[1..][k] == t[j];
          assert s[k + 1] == t[j];
        }
      }
      assert forall j :: 0 < j < |t| + 1 ==> ([s[0]] + t)[j] == t[j - 1];
    }
  }

  /** Sorting an id-ordered list gives the store's listing order: newest
      first, and equal timestamps in insertion order (the sort is stable). */
  lemma {:induction false} SortGivesListingOrder(s: seq<Note>)
    requires IdsAscending(s)
    ensures InListingOrder(SortNewestFirst(s))
  {
    if s != [] {
      var t := SortNewestFirst(s[1..]);
      SortGivesListingOrder(s[1..]);
      forall y | y in t
        ensures s[0].id < y.id
      {
        assert y in multiset(s[1..]);
        var k :| 0 <= k < |s[1..]| && s[1..][k] == y;
        assert s[k + 1] == y;
      }
      InsertKeepsListingOrder(s[0], t);
    }
  }

  /** The listing order is strict: no note is listed twice. */
  lemma ListingOrderHasNoDuplicates(s: seq<Note>)
    requires InListingOrder(s)
    ensures forall i, j :: 0 <= i < j < |s| ==> s[i] != s[j]
  {
  }

  // ---------------------------------------------------------------------
  // The store
  // ---------------------------------------------------------------------

  class MemStorage {
    var users: map<int, User>
    var notes: map<int, Note>
    var currentUserId: int
    var currentNoteId: int
    /** Every note id handed out so far, those of deleted notes included. */
    ghost var issuedNoteIds: set<int>

    ghost predicate Valid()
      reads this
    {
      && 1 <= currentUserId && 1 <= currentNoteId
      && UsersKeyedById(users, currentUserId)
      && NotesKeyedById(notes, currentNoteId)
      && (forall id :: id in issuedNoteIds <==> 1 <= id < currentNoteId)
    }

    constructor ()
      ensures Valid()
      ensures users == map[] && notes == map[]
      ensures currentUserId == 1 && currentNoteId == 1 && issuedNoteIds == {}
    {
      users := map[];
      notes := map[];
      currentUserId := 1;
      currentNoteId := 1;
      issuedNoteIds := {};
    }

    /** `users.get(id)`. */
    function GetUser(id: int): (r: Option<User>)
      reads this
      requires Valid()
      ensures r.Some? <==> 1 <= id < currentUserId
      ensures r.Some? ==> r.value == users[id] && r.value.id == id
    {
      if id in users then Some(users[id]) else None
    }

    /** The earliest inserted user with this email, if any. */
    function GetUserByEmail(email: string): (r: Option<User>)
      reads this
      requires Valid()
      ensures r.Some? ==> r.value.id in users && users[r.value.id] == r.value && r.value.email == email
      ensures r.Some? ==> forall u :: u in users.Values && u.email == email ==> r.value.id <= u.id
      ensures r.None? <==> forall u :: u in users.Values ==> u.email != email
    {
      ScanByEmail(users, 1, currentUserId, email)
    }

    /** Exactly the notes of `userId`, newest first, equal timestamps in
        insertion order. */
    function GetNotesByUserId(userId: int): (r: seq<Note>)
      reads this
      requires Valid()
      ensures forall n :: n in r <==> n in notes.Values && n.userId == userId
      ensures NewestFirst(r)
      ensures InListingOrder(r)
      ensures forall i, j :: 0 <= i < j < |r| ==> r[i] != r[j]
    {
      var owned := OwnedBy(notes, 1, currentNoteId, userId);
      var r := SortNewestFirst(owned);
      SortGivesListingOrder(owned);
      ListingOrderHasNoDuplicates(r);
      assert forall n :: n in r <==> n in owned by {
        forall n ensures n in r <==> n in owned {
          assert n in r <==> n in multiset(r);
          assert n in owned <==> n in multiset(owned);
        }
      }
      r
    }

    /** Stores a new user under the current counter, filling in the
        defaults: no avatar and no provider id unless supplied, provider
        "email" unless supplied. Does not look at the other users' emails. */
    method CreateUser(insertUser: InsertUser, now: Timestamp) returns (user: User)
      requires Valid()
      modifies this`users, this`currentUserId
      ensures Valid()
      ensures user.id == old(currentUserId) && user.id !in old(users)
      ensures currentUserId == old(currentUserId) + 1
      ensures && user.name == insertUser.name && user.email == insertUser.email
              && user.avatar == insertUser.avatar && user.providerId == insertUser.providerId
              && user.createdAt == now
      ensures user.provider == (if insertUser.provider.Some? then insertUser.provider.value else "email")
      ensures users == old(users)[user.id := user]
      ensures GetUser(user.id) == Some(user)
    {
      var id := currentUserId;
      currentUserId := currentUserId + 1;
      var provider := if insertUser.provider.Some? then insertUser.provider.value else "email";
      user := User(id, insertUser.name, insertUser.email, insertUser.avatar, provider, insertUser.providerId, now);
      users := users[id := user];
    }

    /** Stores a new note under the current counter, created and updated now. */
    method CreateNote(insertNote: InsertNote, now: Timestamp) returns (note: Note)
      requires Valid()
      modifies this`notes, this`currentNoteId, this`issuedNoteIds
      ensures Valid()
      ensures note.id == old(currentNoteId) && note.id !in old(issuedNoteIds)
      ensures issuedNoteIds == old(issuedNoteIds) + {note.id}
      ensures currentNoteId == old(currentNoteId) + 1
      ensures && note.userId == insertNote.userId && note.title == insertNote.title
              && note.content == insertNote.content
      ensures note.createdAt == now && note.updatedAt == now
      ensures notes == old(notes)[note.id := note]
    {
      var id := currentNoteId;
      currentNoteId := currentNoteId + 1;
      issuedNoteIds := issuedNoteIds + {id};
      note := Note(id, insertNote.userId, insertNote.title, insertNote.content, now, now);
      notes := notes[id := note];
    }

    /** Removes note `id` if it exists and belongs to `userId`; otherwise
        changes nothing and answers false, so that a note of another user
        looks exactly like a missing one. */
    method DeleteNote(id: int, userId: int) returns (deleted: bool)
      requires Valid()
      modifies this`notes
      ensures Valid()
      ensures deleted <==> id in old(notes) && old(notes)[id].userId == userId
      ensures deleted ==> notes == old(notes) - {id}
      ensures !deleted ==> notes == old(notes)
    {
      if id !in notes || notes[id].userId != userId {
        return false;
      }
      notes := notes - {id};
      deleted := true;
    }

    /** Overwrites the supplied fields of note `id` and its `updatedAt`, if
        the note exists and belongs to `userId`; otherwise changes nothing
        and answers `None`. */
    method UpdateNote(id: int, userId: int, updates: NotePatch, now: Timestamp) returns (r: Option<Note>)
      requires Valid()
      modifies this`notes
      ensures Valid()
      ensures r.Some? <==> id in old(notes) && old(notes)[id].userId == userId
      ensures r.None? ==> notes == old(notes)
      ensures r.Some? ==> notes == old(notes)[id := r.value]
      ensures r.Some? ==>
        var was := old(notes)[id];
        && r.value.id == id && r.value.createdAt == was.createdAt && r.value.updatedAt == now
        && r.value.userId == (if updates.userId.Some? then updates.userId.value else was.userId)
        && r.value.title == (if updates.title.Some? then updates.title.value else was.title)
        && r.value.content == (if updates.content.Some? then updates.content.value else was.content)
    {
      if id !in notes || notes[id].userId != userId {
        return None;
      }
      var note := notes[id];
      var updated := Note(
        note.id,
        if updates.userId.Some? then updates.userId.value else note.userId,
        if updates.title.Some? then updates.title.value else note.title,
        if updates.content.Some? then updates.content.value else note.content,
        note.createdAt,
        now);
      notes := notes[id := updated];
      r := Some(updated);
    }
  }
}
