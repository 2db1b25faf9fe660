/** Transport selection and delivery order for outgoing messages (`send`,
    `Send`). */
module Routing {
  import opened MatrixTypes

  /** The transport `send` picks for a room: encrypted when the cache says the
      room is encrypted, plaintext when the flag is false or missing. */
  function Route(isEncrypted: map<string, bool>, room: string): Transport
  {
    if room in isEncrypted && isEncrypted[room] then Encrypted else Plaintext
  }

  /** The transport `Send` uses for one recipient: encrypted when the binding
      itself is encrypted, otherwise whatever `send` picks for its room. */
  function Via(isEncrypted: map<string, bool>, user: MatrixUser): Transport
  {
    if user.encrypted then Encrypted else Route(isEncrypted, user.roomID)
  }

  /** A recipient is reached in plaintext only when neither its binding nor the
      cache marks its room encrypted; an encrypted cache entry always wins. */
  lemma ViaPlaintextIff(isEncrypted: map<string, bool>, user: MatrixUser)
    ensures Via(isEncrypted, user) == Plaintext <==>
              !user.encrypted && (user.roomID !in isEncrypted || !isEncrypted[user.roomID])
    ensures user.roomID in isEncrypted && isEncrypted[user.roomID] ==> Via(isEncrypted, user) == Encrypted
  {
  }

  /** The delivery attempted for one recipient; it fails when the room is one
      of the `failing` rooms. */
  function Attempt(isEncrypted: map<string, bool>, content: Content, user: MatrixUser,
                   failing: set<string>): Delivery
  {
    Delivery(user.roomID, Via(isEncrypted, user), content, user.roomID !in failing)
  }

  /** The deliveries `Send` attempts, in recipient order, ending with the first
      one that fails. */
  function Trace(isEncrypted: map<string, bool>, content: Content, users: seq<MatrixUser>,
                 failing: set<string>): (t: seq<Delivery>)
    ensures |t| <= |users|
  {
    if users == [] then []
    else
      var d := Attempt(isEncrypted, content, users[0], failing);
      if d.delivered then [d] + Trace(isEncrypted, content, users[1..], failing) else [d]
  }

  /** The error `Send` returns after the attempts of `trace`. */
  function TraceError(trace: seq<Delivery>): SendError
  {
    if trace != [] && !trace[|trace| - 1].delivered then SendFailed(trace[|trace| - 1].roomID)
    else NoError
  }

  /** True when every recipient of `users` is reachable. */
  ghost predicate AllReachable(users: seq<MatrixUser>, failing: set<string>)
  {
    forall i :: 0 <= i < |users| ==> users[i].roomID !in failing
  }

  /** When every recipient of `xs` is reached, the attempts for `xs + ys` are
      those for `xs` followed by those for `ys`. */
  lemma {:induction false} TraceAppend(isEncrypted: map<string, bool>, content: Content,
                                       xs: seq<MatrixUser>, ys: seq<MatrixUser>, failing: set<string>)
    requires AllReachable(xs, failing)
    ensures Trace(isEncrypted, content, xs + ys, failing)
         == Trace(isEncrypted, content, xs, failing) + Trace(isEncrypted, content, ys, failing)
  {
    if xs != [] {
      assert (xs + ys)[1..] == xs[1..] + ys;
      assert (xs + ys)[0] == xs[0];
      TraceAppend(isEncrypted, content, xs[1..], ys, failing);
    } else {
      assert xs + ys == ys;
    }
  }

  /** One step of the `Send` loop: after reaching every recipient before `i`,
      the attempt for recipient `i` either ends the trace (on failure) or
      extends the reached prefix by one. */
  lemma TraceStep(isEncrypted: map<string, bool>, content: Content, users: seq<MatrixUser>,
                  i: nat, failing: set<string>)
    requires i < |users| && AllReachable(users[..i], failing)
    ensures var d := Attempt(isEncrypted, content, users[i], failing);
      && (!d.delivered ==> Trace(isEncrypted, content, users, failing)
                             == Trace(isEncrypted, content, users[..i], failing) + [d])
      && (d.delivered ==> && Trace(isEncrypted, content, users[..i + 1], failing)
                             == Trace(isEncrypted, content, users[..i], failing) + [d]
                          && AllReachable(users[..i + 1], failing))
  {
    var d := Attempt(isEncrypted, content, users[i], failing);
    if d.delivered {
      TraceAppend(isEncrypted, content, users[..i], [users[i]], failing);
      assert users[..i + 1] == users[..i] + [users[i]];
    } else {
      TraceAppend(isEncrypted, content, users[..i], users[i..], failing);
      assert users[..i] + users[i..] == users;
      assert users[i..][0] == users[i];
    }
  }

  /** `Send` is fail-fast: recipients are tried in order, every attempt but the
      last succeeded, it stops early only right after a failure, and the
      recipients after that failure are never tried. */
  lemma {:induction false} TraceFailFast(isEncrypted: map<string, bool>, content: Content,
                                         users: seq<MatrixUser>, failing: set<string>)
    ensures var t := Trace(isEncrypted, content, users, failing);
      && |t| <= |users|
      && (forall i :: 0 <= i < |t| ==> t[i] == Attempt(isEncrypted, content, users[i], failing))
      && (forall i :: 0 <= i < |t| - 1 ==> t[i].delivered)
      && (|t| < |users| ==> t != [] && !t[|t| - 1].delivered)
  {
    if users != [] {
      TraceFailFast(isEncrypted, content, users[1..], failing);
      var t := Trace(isEncrypted, content, users, failing);
      var t' := Trace(isEncrypted, content, users[1..], failing);
      if t[0].delivered {
        assert t == [t[0]] + t';
        forall i | 0 < i < |t|
          ensures t[i] == Attempt(isEncrypted, content, users[i], failing)
          ensures i < |t| - 1 ==> t[i].delivered
        {
          assert t[i] == t'[i - 1] && users[i] == users[1..][i - 1];
        }
        assert t' != [] ==> t[|t| - 1] == t'[|t'| - 1];
      } else {
        assert t == [t[0]];
      }
    }
  }

  /** `Send` reports no error exactly when every recipient is reachable. */
  lemma {:induction false} TraceNoErrorIff(isEncrypted: map<string, bool>, content: Content,
                                           users: seq<MatrixUser>, failing: set<string>)
    ensures TraceError(Trace(isEncrypted, content, users, failing)) == NoError
        <==> AllReachable(users, failing)
  {
    if users != [] {
      TraceNoErrorIff(isEncrypted, content, users[1..], failing);
      var t := Trace(isEncrypted, content, users, failing);
      var t' := Trace(isEncrypted, content, users[1..], failing);
      if users[0].roomID !in failing {
        assert t == [t[0]] + t';
        assert t' != [] ==> t[|t| - 1] == t'[|t'| - 1];
        assert AllReachable(users, failing) <==> AllReachable(users[1..], failing) by {
          if AllReachable(users[1..], failing) {
            forall i | 0 <= i < |users| ensures users[i].roomID !in failing {
              if i > 0 { assert users[i] == users[1..][i - 1]; }
            }
          }
        }
      } else {
        assert !AllReachable(users, failing) by { assert users[0].roomID in failing; }
      }
    }
  }

  /** When recipient `k` is the first unreachable one, `Send` reports its
      room. */
  lemma {:induction false} TraceFirstError(isEncrypted: map<string, bool>, content: Content,
                                           users: seq<MatrixUser>, failing: set<string>, k: nat)
    requires k < |users| && AllReachable(users[..k], failing) && users[k].roomID in failing
    ensures TraceError(Trace(isEncrypted, content, users, failing)) == SendFailed(users[k].roomID)
  {
    TraceStep(isEncrypted, content, users, k, failing);
  }

  /** The content `Send` builds: the body is always the plain text; the HTML
      fields are set, together, only when the markdown source is non-empty and
      renders to something non-empty. `render` stands for the markdown
      renderer applied after image embeds are turned into links. */
  function BuildContent(message: Message, render: string -> string): (c: Content)
    ensures c.body == message.text
    ensures c.format == HtmlFormat <==> c.formattedBody != ""
    ensures c.format == "" || c.format == HtmlFormat
    ensures message.markdown == "" ==> c.format == "" && c.formattedBody == ""
    ensures c.formattedBody == if message.markdown != "" then render(message.markdown) else ""
  {
    var md := if message.markdown != "" then render(message.markdown) else "";
    if md != "" then Content(message.text, HtmlFormat, md) else TextContent(message.text)
  }
}
