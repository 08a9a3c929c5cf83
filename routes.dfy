/** The decision logic of the HTTP handlers in server/routes.ts, as a state
    machine over the store, the caller's session and the connection
    registry. Express, zod and `ws` are stripped away: each handler is a
    method that takes the request's content, updates the state and returns
    the status code and body it would send, plus the deliveries of any
    broadcast it triggers.

    Schema validation is a parameter `check` that answers `None` when the
    value passes and the first error message otherwise (a 400). Clock
    readings (`new Date()`) are parameters: one value for a single reading,
    a function from the reading's index for the per-socket readings of a
    broadcast. `encodeURIComponent` is a parameter too.
    Nothing in the model throws, so the handlers' 500 branches do not occur. */
module Routes {
  import opened JsRuntime
  import opened Storage
  import opened Realtime

  /** `req.session` of one client. */
  class Session {
    var userId: Option<int>

    constructor (userId: Option<int>)
      ensures this.userId == userId
    {
      this.userId := userId;
    }
  }

  /** `if (!userId)` fails for a missing id and for the id 0. */
  predicate SignedIn(userId: Option<int>): (b: bool)
    ensures b <==> userId.Some? && Truthy(Number(userId.value))
  {
    userId.Some? && userId.value != 0
  }

  /** The only user fields a response ever carries. */
  datatype PublicUser = PublicUser(id: int, name: string, email: string, avatar: Option<string>)

  function Public(u: User): PublicUser
  {
    PublicUser(u.id, u.name, u.email, u.avatar)
  }

  /** What a response says about a user does not depend on how the account
      was made or when: `provider`, `providerId` and `createdAt` never leak. */
  lemma PublicHidesInternals(u: User, provider: string, providerId: Option<string>, createdAt: Timestamp)
    ensures Public(u.(provider := provider, providerId := providerId, createdAt := createdAt)) == Public(u)
  {
  }

  datatype Body =
    | UserBody(user: PublicUser)
    | NotesBody(notes: seq<Note>)
    | NoteBody(note: Note)
    | MessageBody(message: string)

  datatype Response = Response(status: int, body: Body)

  datatype LoginData = LoginData(email: string, password: string)

  /** The body of `/api/auth/google`; `None` is a missing field. */
  datatype GoogleProfile = GoogleProfile(name: Option<string>, email: Option<string>, avatar: Option<string>)

  /** The body of `POST /api/notes`, including any `userId` the client sent. */
  datatype NoteRequest = NoteRequest(title: string, content: string, userId: Option<int>)

  /** A string field that is present and truthy. */
  predicate Present(field: Option<string>): (b: bool)
    ensures b <==> field.Some? && Truthy(Str(field.value))
  {
    field.Some? && field.value != ""
  }

  /** The ui-avatars.com address used when a Google profile has no avatar
      is the encoded name between these two. */
  const AvatarPrefix: string := "https://ui-avatars.com/api/?name="
  const AvatarSuffix: string := "&background=10b981&color=ffffff"

  ghost predicate EmailTaken(users: map<int, User>, email: string)
  {
    exists id :: id in users && users[id].email == email
  }

  /** No two users share an email. The store does not enforce this; the
      handlers that create users do. */
  ghost predicate UniqueEmails(users: map<int, User>)
  {
    forall a, b :: a in users && b in users && users[a].email == users[b].email ==> a == b
  }

  /** Note `id` (NaN when `None`) exists and belongs to `userId`. */
  ghost predicate Owns(notes: map<int, Note>, id: Option<int>, userId: int)
  {
    id.Some? && id.value in notes && notes[id.value].userId == userId
  }

  class App {
    const storage: MemStorage
    const registry: Registry

    ghost predicate Valid()
      reads storage, registry
    {
      storage.Valid() && registry.Valid() && UniqueEmails(storage.users)
    }

    constructor ()
      ensures Valid() && fresh(storage) && fresh(registry)
      ensures storage.users == map[] && storage.notes == map[] && registry.connections == []
      ensures storage.currentUserId == 1 && storage.currentNoteId == 1 && storage.issuedNoteIds == {}
    {
      storage := new MemStorage();
      registry := new Registry();
    }

    /** `POST /api/auth/register`: a known email is refused with 400;
        otherwise exactly one user is created and the session signs in as it. */
    method Register(session: Session, body: InsertUser, check: InsertUser -> Option<string>, now: Timestamp)
      returns (res: Response)
      requires Valid()
      modifies storage`users, storage`currentUserId, session
      ensures Valid()
      ensures check(body).Some? ==>
        && res == Response(400, MessageBody(check(body).value))
        && storage.users == old(storage.users) && session.userId == old(session.userId)
        && storage.currentUserId == old(storage.currentUserId)
      ensures check(body).None? && EmailTaken(old(storage.users), body.email) ==>
        && res == Response(400, MessageBody("User already exists"))
        && storage.users == old(storage.users) && session.userId == old(session.userId)
        && storage.currentUserId == old(storage.currentUserId)
      ensures check(body).None? && !EmailTaken(old(storage.users), body.email) ==>
        var id := old(storage.currentUserId);
        var user := User(id, body.name, body.email, body.avatar,
                         if body.provider.Some? then body.provider.value else "email", body.providerId, now);
        && id !in old(storage.users)
        && storage.users == old(storage.users)[id := user]
        && storage.currentUserId == id + 1
        && session.userId == Some(id)
        && res == Response(200, UserBody(PublicUser(id, body.name, body.email, body.avatar)))
    {
      var invalid := check(body);
      if invalid.Some? {
        return Response(400, MessageBody(invalid.value));
      }
      var existing := storage.GetUserByEmail(body.email);
      if existing.Some? {
        return Response(400, MessageBody("User already exists"));
      }
      var user := storage.CreateUser(body, now);
      session.userId := Some(user.id);
      res := Response(200, UserBody(Public(user)));
    }

    /** `POST /api/auth/login`: the password is never looked at. An unknown
        email, or a user whose name is blank, is refused with 401; otherwise
        the session signs in as the user found and nothing is created. */
    method Login(session: Session, body: LoginData, check: LoginData -> Option<string>)
      returns (res: Response)
      requires Valid()
      modifies session
      ensures check(body).Some? ==>
        res == Response(400, MessageBody(check(body).value)) && session.userId == old(session.userId)
      ensures check(body).None? && !EmailTaken(storage.users, body.email) ==>
        && res == Response(401, MessageBody("User not found. Please sign up first."))
        && session.userId == old(session.userId)
      ensures check(body).None? && EmailTaken(storage.users, body.email) ==>
        var user := storage.GetUserByEmail(body.email).value;
        && user in storage.users.Values && user.email == body.email
        && (Blank(user.name) ==>
              res == Response(401, MessageBody("Invalid account. Please sign up again."))
              && session.userId == old(session.userId))
        && (!Blank(user.name) ==>
              res == Response(200, UserBody(Public(user))) && session.userId == Some(user.id))
    {
      var invalid := check(body);
      if invalid.Some? {
        return Response(400, MessageBody(invalid.value));
      }
      var found := storage.GetUserByEmail(body.email);
      if found.None? {
        return Response(401, MessageBody("User not found. Please sign up first."));
      }
      var user := found.value;
      TrimEmptyIffBlank(user.name);
      if user.name == "" || Trim(user.name) == "" {
        return Response(401, MessageBody("Invalid account. Please sign up again."));
      }
      session.userId := Some(user.id);
      res := Response(200, UserBody(Public(user)));
    }

    /** `POST /api/auth/google`: an upsert keyed by email. A missing name or
        email is refused with 400; a known email signs in as that user
        without creating anything; an unknown one creates exactly one user
        with provider "google", provider id = email and, when none is
        given, a generated avatar. */
    method GoogleSignIn(session: Session, profile: GoogleProfile, now: Timestamp, encodeURIComponent: string -> string)
      returns (res: Response)
      requires Valid()
      modifies storage`users, storage`currentUserId, session
      ensures Valid()
      ensures !Present(profile.name) || !Present(profile.email) ==>
        && res == Response(400, MessageBody("Invalid Google user data"))
        && storage.users == old(storage.users) && session.userId == old(session.userId)
        && storage.currentUserId == old(storage.currentUserId)
      ensures Present(profile.name) && Present(profile.email) && EmailTaken(old(storage.users), profile.email.value) ==>
        storage.users == old(storage.users) && storage.currentUserId == old(storage.currentUserId)
      ensures Present(profile.name) && Present(profile.email) && EmailTaken(old(storage.users), profile.email.value) ==>
        var user := storage.GetUserByEmail(profile.email.value).value;
        && user in storage.users.Values && user.email == profile.email.value
        && session.userId == Some(user.id)
        && res == Response(200, UserBody(Public(user)))
      ensures Present(profile.name) && Present(profile.email) && !EmailTaken(old(storage.users), profile.email.value) ==>
        var id := old(storage.currentUserId);
        var name := profile.name.value;
        var email := profile.email.value;
        var avatar := if Present(profile.avatar) then profile.avatar.value else AvatarPrefix + encodeURIComponent(name) + AvatarSuffix;
        var user := User(id, name, email, Some(avatar), "google", Some(email), now);
        && id !in old(storage.users)
        && storage.users == old(storage.users)[id := user]
        && storage.currentUserId == id + 1
        && session.userId == Some(id)
        && res == Response(200, UserBody(Public(user)))
    {
      if !Present(profile.name) || !Present(profile.email) {
        return Response(400, MessageBody("Invalid Google user data"));
      }
      var name, email := profile.name.value, profile.email.value;
      var found := storage.GetUserByEmail(email);
      var user: User;
      if found.Some? {
        user := found.value;
      } else {
        var avatar := if Present(profile.avatar) then profile.avatar.value else AvatarPrefix + encodeURIComponent(name) + AvatarSuffix;
        user := storage.CreateUser(InsertUser(name, email, Some(avatar), Some("google"), Some(email)), now);
      }
      session.userId := Some(user.id);
      res := Response(200, UserBody(Public(user)));
    }

    /** `GET /api/auth/me`: 401 when signed out or when the session's user
        no longer exists; otherwise that user's public fields. */
    method Me(session: Session) returns (res: Response)
      requires Valid()
      ensures !SignedIn(session.userId) ==> res == Response(401, MessageBody("Not authenticated"))
      ensures SignedIn(session.userId) && session.userId.value !in storage.users ==>
        res == Response(401, MessageBody("User not found"))
      ensures SignedIn(session.userId) && session.userId.value in storage.users ==>
        res == Response(200, UserBody(Public(storage.users[session.userId.value])))
    {
      var userId := session.userId;
      if !SignedIn(userId) {
        return Response(401, MessageBody("Not authenticated"));
      }
      var user := storage.GetUser(userId.value);
      if user.None? {
        return Response(401, MessageBody("User not found"));
      }
      res := Response(200, UserBody(Public(user.value)));
    }

    /** `POST /api/auth/logout`: the session store's `destroy` either fails
        (500, session kept) or ends the session. */
    method Logout(session: Session, destroyFails: bool) returns (res: Response)
      modifies session
      ensures destroyFails ==>
        res == Response(500, MessageBody("Failed to logout")) && session.userId == old(session.userId)
      ensures !destroyFails ==>
        res == Response(200, MessageBody("Logged out successfully")) && session.userId == None
    {
      if destroyFails {
        return Response(500, MessageBody("Failed to logout"));
      }
      session.userId := None;
      res := Response(200, MessageBody("Logged out successfully"));
    }

    /** `GET /api/notes`: 401 when signed out; otherwise exactly the
        caller's notes, newest first. */
    method ListNotes(session: Session) returns (res: Response)
      requires Valid()
      ensures !SignedIn(session.userId) ==> res == Response(401, MessageBody("Not authenticated"))
      ensures SignedIn(session.userId) ==>
        && res.status == 200 && res.body.NotesBody?
        && (forall n :: n in res.body.notes <==> n in storage.notes.Values && n.userId == session.userId.value)
        && InListingOrder(res.body.notes)
    {
      var userId := session.userId;
      if !SignedIn(userId) {
        return Response(401, MessageBody("Not authenticated"));
      }
      res := Response(200, NotesBody(storage.GetNotesByUserId(userId.value)));
    }

    /** `POST /api/notes`: 401 when signed out and 400 when the schema
        refuses, both without touching the store. Otherwise the note is
        stored as the session's user, whatever `userId` the body carried,
        and only then is `note_created` broadcast with the stored note. */
    method PostNote(session: Session, body: NoteRequest, check: InsertNote -> Option<string>,
                    now: Timestamp, clock: nat -> Timestamp, open: set<Socket>)
      returns (res: Response, sent: seq<Delivery>)
      requires Valid()
      modifies storage`notes, storage`currentNoteId, storage`issuedNoteIds
      ensures Valid()
      ensures !SignedIn(session.userId) ==>
        res == Response(401, MessageBody("Not authenticated")) && unchanged(storage) && sent == []
      ensures SignedIn(session.userId) ==>
        var input := InsertNote(session.userId.value, body.title, body.content);
        && (check(input).Some? ==>
              res == Response(400, MessageBody(check(input).value)) && unchanged(storage) && sent == [])
        && (check(input).None? ==>
              var id := old(storage.currentNoteId);
              var note := Note(id, session.userId.value, body.title, body.content, now, now);
              && id !in old(storage.issuedNoteIds)
              && storage.issuedNoteIds == old(storage.issuedNoteIds) + {id}
              && storage.currentNoteId == id + 1
              && storage.notes == old(storage.notes)[id := note]
              && res == Response(200, NoteBody(note))
              && Recipients(sent) == OpenTargets(registry.connections, open)
              && forall k :: 0 <= k < |sent| ==> sent[k].envelope == Envelope("note_created", NoteCreated(storage.notes[id]), clock(k)))
    {
      var userId := session.userId;
      if !SignedIn(userId) {
        return Response(401, MessageBody("Not authenticated")), [];
      }
      var input := InsertNote(userId.value, body.title, body.content);
      var invalid := check(input);
      if invalid.Some? {
        return Response(400, MessageBody(invalid.value)), [];
      }
      var note := storage.CreateNote(input, now);
      sent := registry.Broadcast("note_created", NoteCreated(note), clock, open);
      res := Response(200, NoteBody(note));
    }

    /** `DELETE /api/notes/:id`: 401 when signed out; 404 with no broadcast
        when the id is not a number, names no note, or names another
        user's note; otherwise the note is removed and only then is
        `note_deleted` broadcast with `{id, userId}`. */
    method DeleteNote(session: Session, idParam: string, clock: nat -> Timestamp, open: set<Socket>)
      returns (res: Response, sent: seq<Delivery>)
      requires Valid()
      modifies storage`notes
      ensures Valid()
      ensures !SignedIn(session.userId) ==>
        res == Response(401, MessageBody("Not authenticated")) && unchanged(storage) && sent == []
      ensures SignedIn(session.userId) && !Owns(old(storage.notes), ParseInt(idParam), session.userId.value) ==>
        res == Response(404, MessageBody("Note not found")) && unchanged(storage) && sent == []
      ensures SignedIn(session.userId) && Owns(old(storage.notes), ParseInt(idParam), session.userId.value) ==>
        var id := ParseInt(idParam).value;
        && storage.notes == old(storage.notes) - {id}
        && res == Response(200, MessageBody("Note deleted successfully"))
        && Recipients(sent) == OpenTargets(registry.connections, open)
        && forall k :: 0 <= k < |sent| ==> sent[k].envelope == Envelope("note_deleted", NoteDeleted(id, session.userId.value), clock(k))
    {
      var userId := session.userId;
      if !SignedIn(userId) {
        return Response(401, MessageBody("Not authenticated")), [];
      }
      var noteId := ParseInt(idParam);
      var deleted := false;
      if noteId.Some? {
        deleted := storage.DeleteNote(noteId.value, userId.value);
      }
      // With a NaN id `notes.get` finds nothing, so `deleteNote` answers false.
      if !deleted {
        return Response(404, MessageBody("Note not found")), [];
      }
      sent := registry.Broadcast("note_deleted", NoteDeleted(noteId.value, userId.value), clock, open);
      res := Response(200, MessageBody("Note deleted successfully"));
    }
  }
}
