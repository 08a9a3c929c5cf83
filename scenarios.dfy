/** Two scenarios proved from the handlers' contracts alone: a first note
    reaches another open socket, and a second registration with the same
    email is refused. */
module Scenarios {
  import opened JsRuntime
  import opened Storage
  import opened Realtime
  import opened Routes

  /** Every value passes the schema. */
  function Accept<T>(x: T): Option<string>
  {
    None
  }

  /** Ann registers and posts her first note while a second browser has an
      open socket: the note gets id 1, belongs to Ann, and the second
      socket is sent `note_created` with that note, stamped with the first
      clock reading of the broadcast. */
  method FirstNoteReachesOtherSocket(now: Timestamp, later: Timestamp, clock: nat -> Timestamp)
  {
    var app := new App();
    var ann := new Session(None);
    app.registry.OnConnection(7);

    var reg := app.Register(ann, InsertUser("Ann", "a@x.com", None, None, None), Accept, now);
    assert reg.status == 200;
    assert ann.userId == Some(1);

    var res, sent := app.PostNote(ann, NoteRequest("Day1", "setup", Some(42)), Accept, later, clock, {7});
    var note := Note(1, 1, "Day1", "setup", later, later);
    assert res == Response(200, NoteBody(note));
    assert app.registry.connections == [Entry(7, ConnInfo(None))];
    assert OpenTargets([Entry(7, ConnInfo(None))], {7}) == [7];
    OneDelivery(sent, 7);
    assert sent == [Delivery(7, Envelope("note_created", NoteCreated(note), clock(0)))];
  }

  lemma OneDelivery(sent: seq<Delivery>, ws: Socket)
    requires Recipients(sent) == [ws]
    ensures |sent| == 1 && sent == [Delivery(ws, sent[0].envelope)]
  {
    assert |sent| == 1 && sent[0].socket == ws;
  }

  /** Two registrations with the same email: the second is refused with
      400 and the store keeps exactly one user. */
  method DuplicateRegistrationRefused(now: Timestamp)
  {
    var app := new App();
    var first := new Session(None);
    var second := new Session(None);
    var body := InsertUser("Dup", "dup@x.com", None, None, None);

    var r1 := app.Register(first, body, Accept, now);
    assert app.storage.users == map[1 := User(1, "Dup", "dup@x.com", None, "email", None, now)];
    assert EmailTaken(app.storage.users, "dup@x.com");

    var r2 := app.Register(second, body, Accept, now);
    assert r2 == Response(400, MessageBody("User already exists"));
    assert second.userId == None;
    assert |app.storage.users| == 1;
  }
}
