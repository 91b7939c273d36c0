/**
 * The `/bot` webhook and `chat_with_llama`: resolve the inbound text, branch
 * on it, and sequence the store writes around the completion call. Results of
 * the network services arrive as parameters.
 */
module Webhook {
  import opened Optional
  import opened Text
  import opened Media
  import opened Deployments
  import opened Conversations

  /** The form fields the webhook reads: From, MediaUrl0, MediaContentType0, Body. */
  datatype Request = Request(from: UserKey, mediaUrl: Option<string>,
                             mediaType: Option<string>, body: Option<string>)

  /** What the outside world answers during one request: the media download,
      the speech-to-text call (None when it raises), the chat completion (None
      when it raises) and whether speech synthesis produced a file. */
  datatype Services = Services(download: Download, transcript: Option<string>,
                               completion: Option<string>, synthesized: bool)

  /** The outbound message: its text and whether an audio link is attached. */
  datatype Reply = Reply(body: string, media: bool)

  const CouldNotHear := "I couldn't hear you."
  const MemoryCleared := "Memory cleared!"
  const ResetToken := "/reset"

  /** What one `chat_with_llama` call produces: the answer, the message list
      sent to the model (None when no model was called) and the new table. */
  datatype Exchange = Exchange(answer: string, sent: Option<seq<Message>>, after: Table)

  /** What one webhook request produces: the reply and the new table. */
  datatype Outcome = Outcome(reply: Reply, after: Table)

  /** `chat_with_llama(user_id, user_input)`: store the user turn, read the
      history, call the model and, when it answers, store its turn. A failed
      call leaves the user turn in place and answers with the fallback. */
  function Converse(d: Deployment, aiKey: bool, t: Table, u: UserKey, input: string,
                    completion: Option<string>): (x: Exchange)
    ensures !ClientReady(d, aiKey) ==> x == Exchange(MissingKeyReply, None, t)
    ensures ClientReady(d, aiKey) ==>
      x.sent == Some(Fetch(Insert(t, u, User, input), d.persona, u))
    ensures ClientReady(d, aiKey) && completion.None? ==>
      x.answer == d.fallback && x.after == Insert(t, u, User, input)
    ensures ClientReady(d, aiKey) && completion.Some? ==>
      x.answer == completion.value &&
      x.after == Insert(Insert(t, u, User, input), u, Assistant, completion.value)
  {
    if !ClientReady(d, aiKey) then Exchange(MissingKeyReply, None, t)
    else
      var stored := Insert(t, u, User, input);
      var history := Fetch(stored, d.persona, u);
      match completion
      case Some(answer) => Exchange(answer, Some(history), Insert(stored, u, Assistant, answer))
      case None => Exchange(d.fallback, Some(history), stored)
  }

  /** The history sent to the model always ends with the turn just stored,
      when the table is reachable and the sender known. */
  lemma SentHistoryEndsWithInput(d: Deployment, aiKey: bool, t: Table, u: UserKey, input: string,
                                 completion: Option<string>)
    requires ClientReady(d, aiKey) && t.available && u.Some?
    ensures var sent := Converse(d, aiKey, t, u, input, completion).sent;
      sent.Some? && |sent.value| >= 2 && sent.value[0] == Message(System, d.persona) &&
      sent.value[|sent.value| - 1] == Message(User, input)
  {
    HistoryAfterInsert(t, d.persona, u, User, input);
  }

  /** A failed completion keeps the user turn: the table has exactly one row
      more than before, holding the input. */
  lemma FailedCallKeepsUserTurn(d: Deployment, aiKey: bool, t: Table, u: UserKey, input: string)
    requires ClientReady(d, aiKey) && t.available
    ensures var x := Converse(d, aiKey, t, u, input, None);
      x.answer == d.fallback && |x.after.rows| == |t.rows| + 1 &&
      x.after.rows[..|t.rows|] == t.rows &&
      x.after.rows[|t.rows|].user == u &&
      x.after.rows[|t.rows|].role == User && x.after.rows[|t.rows|].content == input
  {
  }

  /** A successful exchange adds two rows for the sender: the input, then the answer. */
  lemma ExchangeAddsTwoTurns(d: Deployment, aiKey: bool, t: Table, u: UserKey, input: string,
                             answer: string)
    requires ClientReady(d, aiKey) && t.available && u.Some?
    ensures var after := Converse(d, aiKey, t, u, input, Some(answer)).after;
      UserRows(after.rows, u) == UserRows(t.rows, u) + [after.rows[|t.rows|], after.rows[|t.rows| + 1]] &&
      after.rows[|t.rows|].role == User && after.rows[|t.rows|].content == input &&
      after.rows[|t.rows| + 1].role == Assistant && after.rows[|t.rows| + 1].content == answer
  {
    var t1 := Insert(t, u, User, input);
    var t2 := Insert(t1, u, Assistant, answer);
    assert t1.rows == t.rows + [t1.rows[|t.rows|]];
    assert t2.rows == t1.rows + [t2.rows[|t1.rows|]];
    FilterAppend(t.rows, t1.rows[|t.rows|], u, true);
    FilterAppend(t1.rows, t2.rows[|t1.rows|], u, true);
  }

  /** As written, the input reaches the model only through the table: when no
      connection can be opened, the model is sent the system prompt alone. */
  lemma InputNotSentWithoutStore(d: Deployment, aiKey: bool, t: Table, u: UserKey, input: string,
                                 completion: Option<string>)
    requires ClientReady(d, aiKey) && !t.available
    ensures Converse(d, aiKey, t, u, input, completion).sent == Some([Message(System, d.persona)])
  {
  }

  /** A sender key that is NULL never matches `user_id = %s`, so it has no history. */
  lemma NoHistoryWithoutSender(t: Table, prompt: string)
    ensures Fetch(t, prompt, None) == [Message(System, prompt)]
  {
    NullOwnsNothing(t.rows);
  }

  /** As written, a request without a sender stores its turn under NULL and
      then reads nothing back: the model is sent the system prompt alone. */
  lemma InputNotSentWithoutSender(d: Deployment, aiKey: bool, t: Table, input: string,
                                  completion: Option<string>)
    requires ClientReady(d, aiKey) && t.available
    ensures Converse(d, aiKey, t, None, input, completion).sent == Some([Message(System, d.persona)])
  {
    NoHistoryWithoutSender(Insert(t, None, User, input), d.persona);
  }

  /** The message list evidently intended for the model: what the table gives
      back when the turn could be stored and read, otherwise the system prompt
      followed by the input, so that the model always sees the input. */
  function IntendedHistory(d: Deployment, t: Table, u: UserKey, input: string): (h: seq<Message>)
    ensures |h| >= 2 && h[0] == Message(System, d.persona) && h[|h| - 1] == Message(User, input)
    ensures t.available && u.Some? ==> h == Fetch(Insert(t, u, User, input), d.persona, u)
    ensures !(t.available && u.Some?) ==> h == [Message(System, d.persona), Message(User, input)]
  {
    if t.available && u.Some? then
      HistoryAfterInsert(t, d.persona, u, User, input);
      Fetch(Insert(t, u, User, input), d.persona, u)
    else [Message(System, d.persona), Message(User, input)]
  }

  /** The English-tutor deployment never reports a missing key: it always
      reaches the model, and its fallback is "Error calling AI.". */
  lemma TutorAlwaysCallsModel(aiKey: bool, t: Table, u: UserKey, input: string,
                              completion: Option<string>)
    ensures Converse(EnglishTutor, aiKey, t, u, input, completion).sent.Some?
    ensures Converse(EnglishTutor, aiKey, t, u, input, None).answer == "Error calling AI."
  {
  }

  /** `entrada_final.lower() == "/reset"`. */
  function IsResetCommand(input: string): (b: bool)
    ensures b <==> (|input| == |ResetToken| &&
                    forall i :: 0 <= i < |input| ==> LowerChar(input[i]) == ResetToken[i])
  {
    Lower(input) == ResetToken
  }

  /** The reset test is a case-insensitive comparison with "/reset". */
  lemma {:induction false} ResetCommandSpelling(input: string)
    ensures IsResetCommand(input) <==>
      |input| == 6 && input[0] == '/' &&
      input[1] in "rR" && input[2] in "eE" && input[3] in "sS" && input[4] in "eE" && input[5] in "tT"
  {
    if |input| == 6 {
      var l := Lower(input);
      assert l[0] == LowerChar(input[0]) && l[1] == LowerChar(input[1]) && l[2] == LowerChar(input[2]);
      assert l[3] == LowerChar(input[3]) && l[4] == LowerChar(input[4]) && l[5] == LowerChar(input[5]);
      if l == ResetToken {
        assert l[0] == '/' && l[1] == 'r' && l[2] == 'e' && l[3] == 's' && l[4] == 'e' && l[5] == 't';
      }
      if input[0] == '/' && input[1] in "rR" && input[2] in "eE" && input[3] in "sS"
         && input[4] in "eE" && input[5] in "tT" {
        assert l == ['/', 'r', 'e', 's', 'e', 't'];
      }
    }
  }

  lemma ResetExamples()
    ensures IsResetCommand("/reset") && IsResetCommand("/RESET") && IsResetCommand("/ReSeT")
    ensures !IsResetCommand(" /reset") && !IsResetCommand("reset")
  {
    ResetCommandSpelling("/reset");
    ResetCommandSpelling("/RESET");
    ResetCommandSpelling("/ReSeT");
    ResetCommandSpelling(" /reset");
    ResetCommandSpelling("reset");
  }

  /** `if url_audio:` — a media URL that is present and non-empty. */
  function HasMedia(req: Request): (b: bool)
    ensures req.mediaUrl.None? ==> !b
    ensures req.mediaUrl.Some? ==> (b <==> |req.mediaUrl.value| > 0)
  {
    req.mediaUrl.Some? && req.mediaUrl.value != ""
  }

  /** The resolved input `entrada_final`: the transcript when a media URL is
      present (the body is then ignored), otherwise the stripped body. */
  function ResolveInput(d: Deployment, aiKey: bool, req: Request, s: Services): (input: string)
    ensures HasMedia(req) ==>
      input == Transcribe(ClientReady(d, aiKey), req.mediaType, s.download, s.transcript)
    ensures (HasMedia(req) && ClientReady(d, aiKey) && req.mediaType.Some? &&
             s.download == Status(200) && s.transcript.Some?) ==> input == s.transcript.value
    ensures HasMedia(req) && input != "" ==>
      ClientReady(d, aiKey) && req.mediaType.Some? && s.download == Status(200) &&
      s.transcript == Some(input)
    ensures !HasMedia(req) ==>
      (input == "" <==> req.body.None? || AllSpace(req.body.value)) &&
      (input != "" ==> exists k :: SegmentAt(req.body.value, input, k)) &&
      (input != "" ==> !IsSpace(input[0]) && !IsSpace(input[|input| - 1]))
  {
    var text := Strip(match req.body case Some(b) => b case None => "");
    if HasMedia(req) then Transcribe(ClientReady(d, aiKey), req.mediaType, s.download, s.transcript)
    else if text != "" then text
    else ""
  }

  /** A media message ignores its Body field. */
  lemma MediaIgnoresBody(d: Deployment, aiKey: bool, req: Request, s: Services, body: Option<string>)
    requires HasMedia(req)
    ensures ResolveInput(d, aiKey, req.(body := body), s) == ResolveInput(d, aiKey, req, s)
  {
  }

  /** `bot()`: the three branches on the resolved input. */
  function Handle(d: Deployment, aiKey: bool, t: Table, req: Request, s: Services): (out: Outcome)
    ensures var input := ResolveInput(d, aiKey, req, s);
      (input == "" ==> out == Outcome(Reply(CouldNotHear, false), t)) &&
      (input != "" && IsResetCommand(input) ==>
         out == Outcome(Reply(MemoryCleared, false), Delete(t, req.from))) &&
      (input != "" && !IsResetCommand(input) ==>
         var x := Converse(d, aiKey, t, req.from, input, s.completion);
         out == Outcome(Reply(x.answer, s.synthesized), x.after))
  {
    var input := ResolveInput(d, aiKey, req, s);
    if input == "" then Outcome(Reply(CouldNotHear, false), t)
    else if IsResetCommand(input) then Outcome(Reply(MemoryCleared, false), Delete(t, req.from))
    else
      var x := Converse(d, aiKey, t, req.from, input, s.completion);
      Outcome(Reply(x.answer, s.synthesized), x.after)
  }

  /** A reset request leaves the sender with the system entry alone, touches
      no other sender's rows and adds nothing. */
  lemma ResetRequestClearsHistory(d: Deployment, aiKey: bool, t: Table, req: Request, s: Services,
                                  other: UserKey)
    requires IsResetCommand(ResolveInput(d, aiKey, req, s))
    requires other != req.from
    ensures var out := Handle(d, aiKey, t, req, s);
      out.reply == Reply(MemoryCleared, false) &&
      Fetch(out.after, d.persona, req.from) == [Message(System, d.persona)] &&
      UserRows(out.after.rows, other) == UserRows(t.rows, other)
  {
    HistoryAfterReset(t, d.persona, req.from);
    ResetScope(t, req.from, other);
  }

  /** A text message on a reachable store produces the model's answer, with
      audio exactly when synthesis succeeded, and two new rows for the sender. */
  lemma TextMessageScenario(d: Deployment, aiKey: bool, t: Table, sender: string, body: string,
                            s: Services)
    requires ClientReady(d, aiKey) && t.available && s.completion.Some?
    requires Strip(body) != "" && !IsResetCommand(Strip(body))
    ensures var out := Handle(d, aiKey, t, Request(Some(sender), None, None, Some(body)), s);
      out.reply == Reply(s.completion.value, s.synthesized) &&
      |UserRows(out.after.rows, Some(sender))| == |UserRows(t.rows, Some(sender))| + 2
  {
    ExchangeAddsTwoTurns(d, aiKey, t, Some(sender), Strip(body), s.completion.value);
  }

  /** `chat_with_llama` run against the store, in the source's order. */
  method ChatWithLlama(d: Deployment, aiKey: bool, store: ConversationStore, u: UserKey,
                       input: string, completion: Option<string>)
    returns (answer: string, sent: Option<seq<Message>>)
    requires store.Valid()
    modifies store
    ensures store.Valid()
    ensures Converse(d, aiKey, old(store.Value()), u, input, completion)
            == Exchange(answer, sent, store.Value())
  {
    if !ClientReady(d, aiKey) {
      return MissingKeyReply, None;
    }
    store.Save(u, User, input);
    var history := store.RecentHistory(d.persona, u);
    sent := Some(history);
    match completion {
      case Some(reply) =>
        store.Save(u, Assistant, reply);
        answer := reply;
      case None =>
        answer := d.fallback;
    }
  }

  /** The `/bot` route. */
  method Bot(d: Deployment, aiKey: bool, store: ConversationStore, req: Request, s: Services)
    returns (reply: Reply)
    requires store.Valid()
    modifies store
    ensures store.Valid()
    ensures Handle(d, aiKey, old(store.Value()), req, s) == Outcome(reply, store.Value())
  {
    var input := ResolveInput(d, aiKey, req, s);
    if input != "" {
      if IsResetCommand(input) {
        store.Clear(req.from);
        return Reply(MemoryCleared, false);
      }
      var answer, _ := ChatWithLlama(d, aiKey, store, req.from, input, s.completion);
      reply := Reply(answer, s.synthesized);
    } else {
      reply := Reply(CouldNotHear, false);
    }
  }
}
