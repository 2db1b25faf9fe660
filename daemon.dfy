/** The daemon object (`MatrixDaemon`): its maps are fields that the methods
    update in place. Each method is proved to leave the state its step
    function in `DaemonSpec` describes. */
module MatrixDaemon {
  import opened MatrixTypes
  import opened Commands
  import opened Routing
  import opened DaemonSpec

  class Daemon {
    /** The bot's own user id. */
    const userID: string
    /** Start time in milliseconds; older events are dropped. */
    const start: int
    /** The language catalog: code to display name. */
    const catalog: map<string, string>

    /** Pending PIN to unverified binding. */
    var tokens: map<string, UnverifiedUser>
    /** Room to language code. */
    var languages: map<string, string>
    /** Room to encryption flag. */
    var isEncrypted: map<string, bool>
    /** The persisted bindings, keyed by room id (`app.storage.matrix`). */
    var storage: map<string, MatrixUser>
    /** What each call of the binding store was given to persist. */
    var stores: seq<map<string, MatrixUser>>
    /** Every delivery attempted, in order. */
    var outbox: seq<Delivery>

    ghost function State(): DaemonState
      reads this
    {
      DaemonState(tokens, languages, isEncrypted, storage, stores, outbox)
    }

    /** The struct literal of `newMatrixDaemon`: empty maps, the start time
        taken from the clock reading `nowNanos`. */
    constructor (userID: string, nowNanos: int, catalog: map<string, string>,
                 storage: map<string, MatrixUser>)
      ensures this.userID == userID && this.catalog == catalog
      ensures start == StartMillis(nowNanos)
      ensures State() == DaemonState(map[], map[], map[], storage, [], [])
      ensures Valid(State())
    {
      this.userID := userID;
      this.start := StartMillis(nowNanos);
      this.catalog := catalog;
      tokens := map[];
      languages := map[];
      isEncrypted := map[];
      this.storage := storage;
      stores := [];
      outbox := [];
    }

    /** The seeding loop of `newMatrixDaemon`, visiting the persisted bindings
        in `order`. */
    method SeedCaches(order: seq<string>)
      requires IsIterationOrder(order, storage)
      modifies this
      ensures State() == DaemonSpec.SeedCaches(old(State()), order)
    {
      ghost var s0 := State();
      var i := 0;
      while i < |order|
        invariant 0 <= i <= |order|
        invariant storage == s0.storage
        invariant State() == DaemonSpec.SeedCaches(s0, order[..i])
      {
        assert order[..i + 1][..i] == order[..i];
        var user := storage[order[i]];
        if user.lang != "" {
          languages := languages[user.roomID := user.lang];
        }
        isEncrypted := isEncrypted[user.roomID := user.encrypted];
        i := i + 1;
      }
      assert order[..i] == order;
    }

    /** `handleMessage`. */
    method HandleMessage(evt: Event, order: seq<string>, failing: set<string>)
      requires IsIterationOrder(order, catalog)
      requires BodyReadable(evt, start, userID)
      modifies this
      ensures State() == DaemonSpec.HandleMessage(old(State()), catalog, start, userID, evt, order, failing)
    {
      if evt.timestamp < start {
        return;
      }
      if evt.sender == userID {
        return;
      }
      var lang := EffectiveLanguage(languages, catalog, evt.roomID);
      var sects := Split(evt.body.text);
      if sects[0] == LangCommand {
        if |sects| == 2 {
          CommandLang(evt.roomID, sects[1], lang, order, failing);
        } else {
          CommandLang(evt.roomID, "", lang, order, failing);
        }
      }
    }

    /** `commandLang` for a message in `room`; `lang`, the room's effective
        language, is not used. */
    method CommandLang(room: string, code: string, lang: string, order: seq<string>, failing: set<string>)
      requires IsIterationOrder(order, catalog)
      modifies this
      ensures State() == DaemonSpec.CommandLang(old(State()), catalog, room, code, order, failing)
    {
      if code == "" {
        var list := BuildListing(catalog, order);
        outbox := outbox + [Delivery(room, Plaintext, TextContent(list), room !in failing)];
        return;
      }
      if code !in catalog {
        return;
      }
      languages := languages[room := code];
      if room in storage {
        var u := storage[room];
        u := u.(lang := code);
        storage := storage[room := u];
        stores := stores + [storage];
      }
    }

    /** `CreateRoom`: `outcome` is what the homeserver and the encryption
        helper report; the helper's write to the encryption cache is applied
        here. */
    method CreateRoom(outcome: RoomResult) returns (roomID: string, encrypted: bool, created: bool)
      modifies this
      ensures State() == DaemonSpec.CreateRoom(old(State()), outcome)
      ensures created == outcome.Created?
      ensures created ==> roomID == outcome.roomID && encrypted == outcome.encrypted
    {
      if outcome.CreateFailed? {
        return "", false, false;
      }
      roomID, encrypted, created := outcome.roomID, outcome.encrypted, true;
      if outcome.effect.CacheSet? {
        isEncrypted := isEncrypted[roomID := outcome.effect.flag];
      }
    }

    /** `SendStart`: `room` is the outcome of creating the direct room and
        enabling encryption on it, `pin` the generated PIN, `greeting` and
        `languageHelp` the catalog's welcome strings. */
    method SendStart(userID: string, room: RoomResult, pin: string, greeting: string,
                     languageHelp: string, failing: set<string>) returns (ok: bool)
      modifies this
      ensures (State(), ok) == DaemonSpec.SendStart(old(State()), userID, room, pin, greeting, languageHelp, failing)
    {
      var roomID, encrypted, created := CreateRoom(room);
      if !created {
        return false;
      }
      tokens := tokens[pin := UnverifiedUser(false, NewBinding(roomID, encrypted, userID))];
      var err := SendToRoom(TextContent(WelcomeBody(greeting, pin, languageHelp)), roomID, failing);
      if err != NoError {
        return false;
      }
      ok := true;
    }

    /** `send`: one delivery over the transport the cache selects. */
    method SendToRoom(content: Content, room: string, failing: set<string>) returns (err: SendError)
      modifies this
      ensures (State(), err) == DaemonSpec.SendToRoom(old(State()), content, room, failing)
    {
      if room in isEncrypted && isEncrypted[room] {
        err := SendEncrypted(content, room, failing);
      } else {
        outbox := outbox + [Delivery(room, Plaintext, content, room !in failing)];
        err := if room in failing then SendFailed(room) else NoError;
      }
    }

    /** The encryption gateway's send, which lives outside this module: its
        outcome is taken from `failing`. */
    method SendEncrypted(content: Content, room: string, failing: set<string>) returns (err: SendError)
      modifies this
      ensures State() == old(State()).(outbox := old(outbox) + [Delivery(room, Encrypted, content, room !in failing)])
      ensures err == if room in failing then SendFailed(room) else NoError
    {
      outbox := outbox + [Delivery(room, Encrypted, content, room !in failing)];
      err := if room in failing then SendFailed(room) else NoError;
    }

    /** The body of the `Send` loop for one recipient: encrypted when its
        binding says so, otherwise through `send`. */
    method SendToUser(content: Content, user: MatrixUser, failing: set<string>) returns (err: SendError)
      modifies this
      ensures State() == old(State()).(outbox := old(outbox) + [Attempt(isEncrypted, content, user, failing)])
      ensures err == if user.roomID in failing then SendFailed(user.roomID) else NoError
    {
      if user.encrypted {
        err := SendEncrypted(content, user.roomID, failing);
      } else {
        err := SendToRoom(content, user.roomID, failing);
      }
    }

    /** `Send`: builds the content once, then tries the recipients in order and
        returns at the first failure. */
    method Send(message: Message, users: seq<MatrixUser>, render: string -> string,
                failing: set<string>) returns (err: SendError)
      modifies this
      ensures (State(), err) == SendAll(old(State()), BuildContent(message, render), users, failing)
    {
      var content := BuildContent(message, render);
      ghost var s0 := State();
      ghost var t := Trace(s0.isEncrypted, content, users, failing);
      err := NoError;
      var i := 0;
      while i < |users|
        invariant 0 <= i <= |users|
        invariant AllReachable(users[..i], failing)
        invariant tokens == s0.tokens && languages == s0.languages && isEncrypted == s0.isEncrypted
        invariant storage == s0.storage && stores == s0.stores
        invariant outbox == s0.outbox + Trace(isEncrypted, content, users[..i], failing)
        invariant err == NoError
      {
        err := SendToUser(content, users[i], failing);
        TraceStep(isEncrypted, content, users, i, failing);
        if err != NoError {
          assert outbox == s0.outbox + t;
          assert err == TraceError(t);
          return;
        }
        i := i + 1;
      }
      assert users[..i] == users;
      TraceNoErrorIff(s0.isEncrypted, content, users, failing);
      assert outbox == s0.outbox + t;
    }
  }

  /** `newMatrixDaemon`: `clientOk` is whether the homeserver client could be
      created and `cryptoOk` whether end-to-end encryption could be set up; the
      caches are seeded only when the client exists. */
  method NewMatrixDaemon(userID: string, nowNanos: int, catalog: map<string, string>,
                         storage: map<string, MatrixUser>, order: seq<string>,
                         clientOk: bool, cryptoOk: bool) returns (d: Daemon, ok: bool)
    requires IsIterationOrder(order, storage)
    ensures fresh(d)
    ensures d.userID == userID && d.catalog == catalog && d.start == StartMillis(nowNanos)
    ensures ok == (clientOk && cryptoOk)
    ensures var s0 := DaemonState(map[], map[], map[], storage, [], []);
      d.State() == if clientOk then DaemonSpec.SeedCaches(s0, order) else s0
    ensures Valid(d.State())
  {
    d := new Daemon(userID, nowNanos, catalog, storage);
    if !clientOk {
      return d, false;
    }
    d.SeedCaches(order);
    ok := cryptoOk;
  }
}
