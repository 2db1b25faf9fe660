/** The daemon's state as a value, and one function per operation that gives
    the state it leaves behind. The methods of `MatrixDaemon.Daemon` are proved
    to follow these functions. */
module DaemonSpec {
  import opened MatrixTypes
  import opened Commands
  import opened Routing

  /** Everything the daemon's operations change: pending tokens, the language
      and encryption caches, the persisted bindings (keyed by room id), the
      snapshots handed to the binding store, and the deliveries attempted. */
  datatype DaemonState = DaemonState(
    tokens: map<string, UnverifiedUser>,
    languages: map<string, string>,
    isEncrypted: map<string, bool>,
    storage: map<string, MatrixUser>,
    stores: seq<map<string, MatrixUser>>,
    outbox: seq<Delivery>)

  /** The language a new binding gets, and the fallback for rooms without a
      recognised one. */
  const DefaultLang: string := "en-us"

  /** Within this module no pairing is ever confirmed, and every pending
      binding was issued with the default language. */
  ghost predicate Valid(s: DaemonState)
  {
    forall pin :: pin in s.tokens ==> !s.tokens[pin].verified && s.tokens[pin].user.lang == DefaultLang
  }

  /** `time.Now().UnixNano() / 1e6`: nanoseconds to milliseconds, with Go's
      division, which truncates toward zero. */
  function StartMillis(nanos: int): (ms: int)
    ensures nanos >= 0 ==> 0 <= ms && ms * 1_000_000 <= nanos < (ms + 1) * 1_000_000
    ensures nanos < 0 ==> ms <= 0 && (ms - 1) * 1_000_000 < nanos <= ms * 1_000_000
  {
    if nanos >= 0 then nanos / 1_000_000 else -((-nanos) / 1_000_000)
  }

  // ---- newMatrixDaemon: seeding the caches ----

  /** One iteration of the seeding loop: the binding's language (when it has
      one) and its encryption flag go into the caches under its room id. */
  function SeedOne(s: DaemonState, u: MatrixUser): DaemonState
  {
    s.(languages := if u.lang != "" then s.languages[u.roomID := u.lang] else s.languages,
       isEncrypted := s.isEncrypted[u.roomID := u.encrypted])
  }

  /** The seeding loop over the persisted bindings, visited in `order`. */
  function SeedCaches(s: DaemonState, order: seq<string>): (r: DaemonState)
    requires forall k :: k in order ==> k in s.storage
    ensures r.(languages := s.languages, isEncrypted := s.isEncrypted) == s
  {
    if order == [] then s
    else
      var last := order[|order| - 1];
      SeedOne(SeedCaches(s, order[..|order| - 1]), s.storage[last])
  }

  /** Every persisted binding is filed under its own room id. */
  ghost predicate KeyedByRoom(storage: map<string, MatrixUser>)
  {
    forall k :: k in storage ==> storage[k].roomID == k
  }

  // ---- handleMessage ----

  /** The events `handleMessage` drops: those from before the daemon started
      and those the bot sent itself. */
  predicate Dropped(evt: Event, start: int, botID: string)
  {
    evt.timestamp < start || evt.sender == botID
  }

  /** The language `handleMessage` settles on for a room: the cached one when
      it is a catalog code, `en-us` otherwise. */
  function EffectiveLanguage(languages: map<string, string>, catalog: map<string, string>,
                             room: string): (lang: string)
    ensures lang == DefaultLang || lang in catalog
    ensures lang != DefaultLang ==> room in languages && languages[room] == lang
    ensures room in languages && languages[room] in catalog ==> lang == languages[room]
  {
    if room in languages && languages[room] in catalog then languages[room] else DefaultLang
  }

  /** `commandLang`: the empty code replies with the listing in plaintext; an
      unknown code does nothing; a known code is cached for the room and, when
      the room has a persisted binding, written into it and stored. */
  function CommandLang(s: DaemonState, catalog: map<string, string>, room: string, code: string,
                       order: seq<string>, failing: set<string>): (r: DaemonState)
    requires IsIterationOrder(order, catalog)
    ensures r.tokens == s.tokens && r.isEncrypted == s.isEncrypted
    ensures r.storage.Keys == s.storage.Keys
    ensures s.outbox <= r.outbox && |r.outbox| <= |s.outbox| + 1
  {
    if code == "" then
      s.(outbox := s.outbox + [Delivery(room, Plaintext, TextContent(Listing(order, catalog)), room !in failing)])
    else if code !in catalog then s
    else if room in s.storage then
      var storage := s.storage[room := s.storage[room].(lang := code)];
      s.(languages := s.languages[room := code], storage := storage, stores := s.stores + [storage])
    else
      s.(languages := s.languages[room := code])
  }

  /** The body cast in `handleMessage` succeeds for every event that gets
      past the filters. */
  predicate BodyReadable(evt: Event, start: int, botID: string)
  {
    !Dropped(evt, start, botID) ==> evt.body.TextBody?
  }

  /** `handleMessage`: filter, parse, dispatch. */
  function HandleMessage(s: DaemonState, catalog: map<string, string>, start: int, botID: string,
                         evt: Event, order: seq<string>, failing: set<string>): (r: DaemonState)
    requires IsIterationOrder(order, catalog)
    requires BodyReadable(evt, start, botID)
    ensures r.tokens == s.tokens && r.isEncrypted == s.isEncrypted
    ensures r.storage.Keys == s.storage.Keys
    ensures s.outbox <= r.outbox && |r.outbox| <= |s.outbox| + 1
  {
    if Dropped(evt, start, botID) then s
    else
      match Parse(evt.body.text)
      case NoCommand => s
      case Lang(code) => CommandLang(s, catalog, evt.roomID, code, order, failing)
  }

  // ---- send, SendStart, Send ----

  /** `send`: one delivery to a room over the transport the cache selects. */
  function SendToRoom(s: DaemonState, content: Content, room: string,
                      failing: set<string>): (r: (DaemonState, SendError))
    ensures r.0.(outbox := s.outbox) == s
    ensures |r.0.outbox| == |s.outbox| + 1 && r.0.outbox[..|s.outbox|] == s.outbox
    ensures r.0.outbox[|s.outbox|].roomID == room
    ensures r.1 == NoError <==> room !in failing
  {
    var d := Delivery(room, Route(s.isEncrypted, room), content, room !in failing);
    (s.(outbox := s.outbox + [d]), if d.delivered then NoError else SendFailed(room))
  }

  /** The welcome text: greeting, PIN, and how to switch language. */
  function WelcomeBody(greeting: string, pin: string, languageHelp: string): string
  {
    greeting + "\n\n" + pin + "\n\n" + languageHelp
  }

  /** The binding a new pairing starts with. */
  function NewBinding(room: string, encrypted: bool, userID: string): MatrixUser
  {
    MatrixUser(room, encrypted, userID, DefaultLang, false)
  }

  /** `CreateRoom`: creating the room changes nothing the daemon keeps except
      what enabling encryption writes to the encryption cache for the new
      room. */
  function CreateRoom(s: DaemonState, room: RoomResult): (r: DaemonState)
    ensures r.(isEncrypted := s.isEncrypted) == s
    ensures forall k :: k in s.isEncrypted && (room.CreateFailed? || k != room.roomID)
              ==> k in r.isEncrypted && r.isEncrypted[k] == s.isEncrypted[k]
    ensures forall k :: k in r.isEncrypted && (room.CreateFailed? || k != room.roomID) ==> k in s.isEncrypted
  {
    match room
    case CreateFailed => s
    case Created(roomID, _, CacheUntouched) => s
    case Created(roomID, _, CacheSet(flag)) => s.(isEncrypted := s.isEncrypted[roomID := flag])
  }

  /** `SendStart`: nothing happens when the room cannot be created; otherwise the
      PIN is registered (replacing any entry under it) and the welcome message
      is sent over the transport the cache selects once the room exists; the
      result is whether that send succeeded. */
  function SendStart(s: DaemonState, userID: string, room: RoomResult, pin: string,
                     greeting: string, languageHelp: string, failing: set<string>): (r: (DaemonState, bool))
    ensures r.0.languages == s.languages && r.0.storage == s.storage && r.0.stores == s.stores
    ensures r.0.isEncrypted == CreateRoom(s, room).isEncrypted
    ensures r.1 ==> room.Created?
  {
    match room
    case CreateFailed => (s, false)
    case Created(roomID, encrypted, _) =>
      var s0 := CreateRoom(s, room);
      var s1 := s0.(tokens := s0.tokens[pin := UnverifiedUser(false, NewBinding(roomID, encrypted, userID))]);
      var (s2, err) := SendToRoom(s1, TextContent(WelcomeBody(greeting, pin, languageHelp)), roomID, failing);
      (s2, err == NoError)
  }

  /** `Send`: the deliveries of `Trace` are attempted and the first error is
      returned. */
  function SendAll(s: DaemonState, content: Content, users: seq<MatrixUser>,
                   failing: set<string>): (r: (DaemonState, SendError))
    ensures r.0.(outbox := s.outbox) == s && s.outbox <= r.0.outbox
    ensures |r.0.outbox| <= |s.outbox| + |users|
  {
    var t := Trace(s.isEncrypted, content, users, failing);
    (s.(outbox := s.outbox + t), TraceError(t))
  }
}
