/** What the daemon's operations promise, proved about the step functions of
    `DaemonSpec` for all inputs. */
module DaemonProperties {
  import opened MatrixTypes
  import opened Commands
  import opened Routing
  import opened DaemonSpec

  // ---- handleMessage ----

  /** An event from before the start, or sent by the bot, changes nothing and
      sends nothing. */
  lemma DroppedEventChangesNothing(s: DaemonState, catalog: map<string, string>, start: int,
                                   botID: string, evt: Event, order: seq<string>, failing: set<string>)
    requires IsIterationOrder(order, catalog)
    requires evt.timestamp < start || evt.sender == botID
    ensures HandleMessage(s, catalog, start, botID, evt, order, failing) == s
  {
  }

  /** A body that is not a `!lang` command changes nothing and sends nothing. */
  lemma OtherTextChangesNothing(s: DaemonState, catalog: map<string, string>, start: int,
                                botID: string, evt: Event, order: seq<string>, failing: set<string>)
    requires IsIterationOrder(order, catalog)
    requires evt.body.TextBody?
    requires !(evt.body.text == LangCommand || LangCommand + " " <= evt.body.text)
    ensures HandleMessage(s, catalog, start, botID, evt, order, failing) == s
  {
    ParseNoCommandIff(evt.body.text);
  }

  /** `!lang <code>` with a catalog code, from someone else after the start,
      makes that code the room's cached and effective language. */
  lemma LangCodeRoundTrip(s: DaemonState, catalog: map<string, string>, start: int,
                          botID: string, evt: Event, order: seq<string>, failing: set<string>, code: string)
    requires IsIterationOrder(order, catalog)
    requires !Dropped(evt, start, botID)
    requires evt.body == TextBody(LangCommand + " " + code)
    requires code != "" && ' ' !in code && code in catalog
    ensures var r := HandleMessage(s, catalog, start, botID, evt, order, failing);
      && r == CommandLang(s, catalog, evt.roomID, code, order, failing)
      && r.languages == s.languages[evt.roomID := code]
      && EffectiveLanguage(r.languages, catalog, evt.roomID) == code
  {
    ParseCodeIff(evt.body.text, code);
  }

  /** `!lang <code>` with a code outside the catalog changes nothing and sends
      nothing. */
  lemma UnknownCodeChangesNothing(s: DaemonState, catalog: map<string, string>, start: int,
                                  botID: string, evt: Event, order: seq<string>, failing: set<string>, code: string)
    requires IsIterationOrder(order, catalog)
    requires !Dropped(evt, start, botID)
    requires evt.body == TextBody(LangCommand + " " + code)
    requires code != "" && ' ' !in code && code !in catalog
    ensures HandleMessage(s, catalog, start, botID, evt, order, failing) == s
  {
    ParseCodeIff(evt.body.text, code);
  }

  /** `!lang`, `!lang ` and `!lang` followed by two or more pieces (`!lang a b`)
      all take the listing path. */
  lemma ListingRequests(s: DaemonState, catalog: map<string, string>, start: int,
                        botID: string, evt: Event, order: seq<string>, failing: set<string>)
    requires IsIterationOrder(order, catalog)
    requires !Dropped(evt, start, botID)
    requires evt.body.TextBody?
    requires var b := evt.body.text;
      b == LangCommand || (LangCommand + " " <= b && (|b| == 6 || ' ' in b[6..]))
    ensures HandleMessage(s, catalog, start, botID, evt, order, failing)
         == CommandLang(s, catalog, evt.roomID, "", order, failing)
  {
    ParseListingIff(evt.body.text);
  }

  /** How a few bodies are read. */
  lemma ParseExamples()
    ensures Parse("!lang") == Lang("")
    ensures Parse("!lang ") == Lang("")
    ensures Parse("!lang fr") == Lang("fr")
    ensures Parse("!lang a b") == Lang("")
    ensures Parse("!lang  fr") == Lang("")
    ensures Parse("!language") == NoCommand
    ensures Parse("hi !lang") == NoCommand
  {
    ParseListingIff("!lang");
    ParseListingIff("!lang ");
    assert "!lang "[6..] == "";
    ParseCodeIff("!lang fr", "fr");
    assert "!lang fr" == LangCommand + " " + "fr";
    ParseListingIff("!lang a b");
    assert "!lang a b"[6..][1] == ' ';
    ParseListingIff("!lang  fr");
    assert "!lang  fr"[6..][0] == ' ';
    ParseNoCommandIff("!language");
    assert "!language"[5] != ' ';
    ParseNoCommandIff("hi !lang");
    assert "hi !lang"[0] != '!';
  }

  // ---- commandLang ----

  /** The listing path sends one plaintext message to the room whose body is
      the listing: the usage hint, then one line per catalog code, each code
      once; it changes no map. */
  lemma ListingReply(s: DaemonState, catalog: map<string, string>, room: string,
                     order: seq<string>, failing: set<string>)
    requires IsIterationOrder(order, catalog)
    ensures var r := CommandLang(s, catalog, room, "", order, failing);
      && r.(outbox := s.outbox) == s
      && |r.outbox| == |s.outbox| + 1
      && r.outbox[..|s.outbox|] == s.outbox
      && var d := r.outbox[|s.outbox|];
         && d.roomID == room && d.via == Plaintext && d.delivered == (room !in failing)
         && d.content.format == "" && d.content.formattedBody == ""
         && d.content.body == Listing(order, catalog)
         && d.content.body == UsageHint + Lines(order, catalog)
         && |order| == |catalog.Keys|
         && forall c :: c in catalog ==> Contains(d.content.body, ListingLine(c, catalog[c]))
  {
    ListingComplete(order, catalog);
    var r := CommandLang(s, catalog, room, "", order, failing);
    assert r.outbox[..|s.outbox|] == s.outbox;
  }

  /** A catalog with two distinct codes is listed with the hint and both
      lines, over an order of length two (helper for ListingScenario). */
  lemma ListingOfTwo(order: seq<string>, catalog: map<string, string>, a: string, b: string)
    requires IsIterationOrder(order, catalog)
    requires a != b && catalog.Keys == {a, b}
    ensures var l := Listing(order, catalog);
      && Contains(l, ListingLine(a, catalog[a])) && Contains(l, ListingLine(b, catalog[b]))
      && UsageHint <= l && |order| == 2
  {
    ListingComplete(order, catalog);
    assert catalog.Keys == {a} + {b};
  }

  /** With the two-entry catalog, the listing holds the hint and both lines,
      whatever order the catalog is visited in. */
  lemma ListingScenario(order: seq<string>, catalog: map<string, string>)
    requires catalog == map["en-us" := "English", "fr" := "French"]
    requires IsIterationOrder(order, catalog)
    ensures var l := Listing(order, catalog);
      && Contains(l, "en-us: English\n") && Contains(l, "fr: French\n") && UsageHint <= l
      && |order| == 2
  {
    assert "en-us" != "fr" by { assert "en-us"[0] != "fr"[0]; }
    ListingOfTwo(order, catalog, "en-us", "fr");
    assert ListingLine("en-us", catalog["en-us"]) == "en-us: English\n";
    assert ListingLine("fr", catalog["fr"]) == "fr: French\n";
  }

  /** A code outside the catalog changes nothing. */
  lemma UnknownCodeIgnored(s: DaemonState, catalog: map<string, string>, room: string, code: string,
                           order: seq<string>, failing: set<string>)
    requires IsIterationOrder(order, catalog)
    requires code != "" && code !in catalog
    ensures CommandLang(s, catalog, room, code, order, failing) == s
  {
  }

  /** A catalog code is cached for the room, other rooms keep theirs; a
      persisted binding of the room gets that language and nothing else, and is
      stored exactly once; without one, storage is untouched and nothing is
      stored. Nothing is sent and nothing is undone if storing fails. */
  lemma KnownCodeUpdates(s: DaemonState, catalog: map<string, string>, room: string, code: string,
                         order: seq<string>, failing: set<string>)
    requires IsIterationOrder(order, catalog)
    requires code != "" && code in catalog
    ensures var r := CommandLang(s, catalog, room, code, order, failing);
      && r.languages == s.languages[room := code]
      && (forall k :: k in s.languages && k != room ==> k in r.languages && r.languages[k] == s.languages[k])
      && r.tokens == s.tokens && r.isEncrypted == s.isEncrypted && r.outbox == s.outbox
      && r.storage.Keys == s.storage.Keys
      && (forall k :: k in s.storage && k != room ==> r.storage[k] == s.storage[k])
      && (room in s.storage ==>
            && r.storage[room] == s.storage[room].(lang := code)
            && r.stores == s.stores + [r.storage])
      && (room !in s.storage ==> r.storage == s.storage && r.stores == s.stores)
  {
  }

  // ---- SendStart ----

  /** When the room cannot be created nothing changes and the result is
      false. */
  lemma StartWithoutRoom(s: DaemonState, userID: string, pin: string, greeting: string,
                         languageHelp: string, failing: set<string>)
    ensures SendStart(s, userID, CreateFailed, pin, greeting, languageHelp, failing) == (s, false)
  {
  }

  /** With a room, the PIN maps to an unverified binding for it in `en-us`
      (replacing any earlier entry under that PIN), the welcome message holding
      the PIN is sent through the transport the cache selects once the room
      has been created, the result is whether that send succeeded, and the
      token stays registered either way. */
  lemma StartRegistersPin(s: DaemonState, userID: string, roomID: string, encrypted: bool,
                          effect: CacheEffect, pin: string, greeting: string, languageHelp: string,
                          failing: set<string>)
    ensures var room := Created(roomID, encrypted, effect);
      var (r, ok) := SendStart(s, userID, room, pin, greeting, languageHelp, failing);
      && r.tokens == s.tokens[pin := UnverifiedUser(false, MatrixUser(roomID, encrypted, userID, "en-us", false))]
      && r.languages == s.languages && r.isEncrypted == CreateRoom(s, room).isEncrypted
      && r.storage == s.storage && r.stores == s.stores
      && |r.outbox| == |s.outbox| + 1 && r.outbox[..|s.outbox|] == s.outbox
      && r.outbox[|s.outbox|].roomID == roomID
      && r.outbox[|s.outbox|].via == Route(CreateRoom(s, room).isEncrypted, roomID)
      && Contains(r.outbox[|s.outbox|].content.body, pin)
      && (ok <==> roomID !in failing)
  {
    var (r, ok) := SendStart(s, userID, Created(roomID, encrypted, effect), pin, greeting, languageHelp, failing);
    var body := WelcomeBody(greeting, pin, languageHelp);
    assert OccursAt(body, pin, |greeting| + 2);
  }

  /** A room whose encryption could not be enabled, unknown to the cache and
      left so by room creation, gets its welcome in plaintext, and its pending
      binding is not encrypted. */
  lemma StartPlaintextScenario(s: DaemonState, userID: string, roomID: string, pin: string,
                               greeting: string, languageHelp: string, failing: set<string>)
    requires roomID !in s.isEncrypted
    ensures var (r, _) := SendStart(s, userID, Created(roomID, false, CacheUntouched), pin, greeting, languageHelp, failing);
      && r.outbox[|r.outbox| - 1].via == Plaintext
      && !r.tokens[pin].user.encrypted
  {
  }

  /** A room whose encryption was enabled and recorded in the cache gets its
      welcome encrypted, and its pending binding is encrypted. */
  lemma StartEncryptedScenario(s: DaemonState, userID: string, roomID: string, pin: string,
                               greeting: string, languageHelp: string, failing: set<string>)
    ensures var (r, _) := SendStart(s, userID, Created(roomID, true, CacheSet(true)), pin, greeting, languageHelp, failing);
      && r.outbox[|r.outbox| - 1].via == Encrypted
      && r.tokens[pin].user.encrypted
  {
  }

  // ---- Send ----

  /** `Send` appends exactly the fail-fast attempts and reports the first
      unreachable room. */
  lemma SendAllOutcome(s: DaemonState, content: Content, users: seq<MatrixUser>, failing: set<string>)
    ensures var (r, err) := SendAll(s, content, users, failing);
      && r.(outbox := s.outbox) == s
      && r.outbox[..|s.outbox|] == s.outbox
      && |r.outbox| - |s.outbox| <= |users|
      && (forall i :: |s.outbox| <= i < |r.outbox| ==>
            r.outbox[i] == Attempt(s.isEncrypted, content, users[i - |s.outbox|], failing))
      && (err == NoError <==> AllReachable(users, failing))
      && (err == NoError ==> |r.outbox| - |s.outbox| == |users|)
  {
    var (r, err) := SendAll(s, content, users, failing);
    var t := Trace(s.isEncrypted, content, users, failing);
    TraceFailFast(s.isEncrypted, content, users, failing);
    TraceNoErrorIff(s.isEncrypted, content, users, failing);
    assert r.outbox[..|s.outbox|] == s.outbox;
    assert forall i :: |s.outbox| <= i < |r.outbox| ==> r.outbox[i] == t[i - |s.outbox|];
  }

  // ---- invariants ----

  /** Message handling and sending never change the encryption cache or the set
      of persisted rooms; `SendStart` changes the cache at most at the room it
      creates, and, unless that room was already cached and creation recorded
      it as unencrypted, no cached true flag turns false. Every operation keeps
      all pairings unverified and in `en-us`. */
  lemma StepsPreserveInvariants(s: DaemonState, catalog: map<string, string>, start: int, botID: string,
                                evt: Event, order: seq<string>, failing: set<string>, userID: string,
                                room: RoomResult, pin: string, greeting: string, languageHelp: string,
                                content: Content, target: string, users: seq<MatrixUser>)
    requires Valid(s)
    requires IsIterationOrder(order, catalog)
    requires BodyReadable(evt, start, botID)
    ensures var r := HandleMessage(s, catalog, start, botID, evt, order, failing);
      Valid(r) && r.isEncrypted == s.isEncrypted && r.storage.Keys == s.storage.Keys && r.tokens == s.tokens
    ensures var r := SendStart(s, userID, room, pin, greeting, languageHelp, failing).0;
      && Valid(r) && r.storage == s.storage
      && (forall k :: k in s.isEncrypted && (room.CreateFailed? || k != room.roomID)
            ==> k in r.isEncrypted && r.isEncrypted[k] == s.isEncrypted[k])
      && (forall k :: k in r.isEncrypted && (room.CreateFailed? || k != room.roomID) ==> k in s.isEncrypted)
      && ((room.CreateFailed? || room.roomID !in s.isEncrypted || room.effect != CacheSet(false))
            ==> forall k :: k in s.isEncrypted && s.isEncrypted[k] ==> k in r.isEncrypted && r.isEncrypted[k])
    ensures var r := SendToRoom(s, content, target, failing).0;
      Valid(r) && r.isEncrypted == s.isEncrypted && r.(outbox := s.outbox) == s
    ensures var r := SendAll(s, content, users, failing).0;
      Valid(r) && r.isEncrypted == s.isEncrypted && r.(outbox := s.outbox) == s
  {
  }

  /** Once the cache marks a room encrypted, both `send` and `Send` deliver to
      it only through the encrypted transport. */
  lemma StickyEncryption(s: DaemonState, content: Content, users: seq<MatrixUser>,
                         failing: set<string>, room: string)
    requires room in s.isEncrypted && s.isEncrypted[room]
    ensures SendToRoom(s, content, room, failing).0.outbox[|s.outbox|].via == Encrypted
    ensures var t := Trace(s.isEncrypted, content, users, failing);
      forall i :: 0 <= i < |t| && t[i].roomID == room ==> t[i].via == Encrypted
  {
    TraceFailFast(s.isEncrypted, content, users, failing);
  }

  // ---- newMatrixDaemon ----

  /** Seeding a prefix of the order from an empty encryption cache gives each
      visited binding's flag under its room (helper for SeededCaches). */
  lemma {:induction false} SeedPrefixEncryption(s: DaemonState, order: seq<string>)
    requires s.isEncrypted == map[]
    requires KeyedByRoom(s.storage)
    requires forall k :: k in order ==> k in s.storage
    ensures SeedCaches(s, order).isEncrypted == map k | k in order :: s.storage[k].encrypted
  {
    if order != [] {
      var init := order[..|order| - 1];
      var last := order[|order| - 1];
      assert forall k :: k in order <==> k in init || k == last;
      SeedPrefixEncryption(s, init);
      var m := SeedCaches(s, init).isEncrypted;
      var u := s.storage[last];
      assert u.roomID == last;
      assert SeedCaches(s, order).isEncrypted == m[last := u.encrypted];
      var want := map k | k in order :: s.storage[k].encrypted;
      assert m[last := u.encrypted].Keys == want.Keys;
    }
  }

  /** Seeding a prefix of the order from an empty language cache gives each
      visited binding's non-empty language under its room (helper for
      SeededCaches). */
  lemma {:induction false} SeedPrefixLanguages(s: DaemonState, order: seq<string>)
    requires s.languages == map[]
    requires KeyedByRoom(s.storage)
    requires forall k :: k in order ==> k in s.storage
    ensures SeedCaches(s, order).languages
         == map k | k in order && s.storage[k].lang != "" :: s.storage[k].lang
  {
    if order != [] {
      var init := order[..|order| - 1];
      var last := order[|order| - 1];
      assert forall k :: k in order <==> k in init || k == last;
      SeedPrefixLanguages(s, init);
      var m := SeedCaches(s, init).languages;
      var u := s.storage[last];
      assert u.roomID == last;
      var want := map k | k in order && s.storage[k].lang != "" :: s.storage[k].lang;
      if u.lang != "" {
        assert SeedCaches(s, order).languages == m[last := u.lang];
        assert m[last := u.lang].Keys == want.Keys;
      } else {
        assert SeedCaches(s, order).languages == m;
        assert m.Keys == want.Keys;
      }
    }
  }

  /** When every binding is filed under its own room, seeding from empty caches
      yields, whatever the visiting order, an encryption flag for every persisted
      room and a language for every persisted room with a non-empty one. */
  lemma SeededCaches(s: DaemonState, order: seq<string>)
    requires s.languages == map[] && s.isEncrypted == map[]
    requires KeyedByRoom(s.storage)
    requires IsIterationOrder(order, s.storage)
    ensures SeedCaches(s, order).isEncrypted == map k | k in s.storage :: s.storage[k].encrypted
    ensures SeedCaches(s, order).languages
         == map k | k in s.storage && s.storage[k].lang != "" :: s.storage[k].lang
    ensures SeedCaches(s, order).(languages := map[], isEncrypted := map[]) == s
  {
    SeedPrefixEncryption(s, order);
    SeedPrefixLanguages(s, order);
  }
}
