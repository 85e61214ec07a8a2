/** The assistant's chat handler: the history it hands to the language model,
    and the keyword rules that answer when the model cannot. */
module Chatbot {
  import opened Common
  import opened Base

  /** An entry of the history the client sends back with each message. */
  datatype HistoryEntry = HistoryEntry(sender: string, text: string)

  /** A turn of the history handed to the model. */
  datatype Turn = Turn(role: string, text: string)

  /** The requesting user, as far as the replies use it. */
  datatype ChatUser = ChatUser(firstName: string, lastName: string, role: string)

  /** The turn an entry becomes: the user's own words stay the user's, the
      assistant's become the model's, anything else is dropped. A `null`
      entry contributes nothing here; the handler fails on it first. */
  function TurnOf(e: Option<HistoryEntry>): (r: seq<Turn>)
    ensures |r| <= 1
  {
    if e.None? then []
    else if e.value.sender == "user" then [Turn("user", e.value.text)]
    else if e.value.sender == "bot" then [Turn("model", e.value.text)]
    else []
  }

  /** The turns of a list of entries, in order. */
  function Turns(entries: seq<Option<HistoryEntry>>): (r: seq<Turn>)
    ensures |r| <= |entries|
  {
    if entries == [] then []
    else Turns(entries[..|entries| - 1]) + TurnOf(entries[|entries| - 1])
  }

  /** Every turn speaks as the user or as the model. */
  lemma {:induction false} TurnsRoles(entries: seq<Option<HistoryEntry>>)
    ensures forall k :: 0 <= k < |Turns(entries)| ==>
      Turns(entries)[k].role == "user" || Turns(entries)[k].role == "model"
  {
    if entries != [] {
      TurnsRoles(entries[..|entries| - 1]);
    }
  }

  /** When every entry comes from the user or the assistant, each one becomes
      exactly one turn, at its own position, with its text. */
  lemma {:induction false} TurnsOneEach(entries: seq<Option<HistoryEntry>>)
    requires forall k :: 0 <= k < |entries| ==>
      entries[k].Some? && (entries[k].value.sender == "user" || entries[k].value.sender == "bot")
    ensures |Turns(entries)| == |entries|
    ensures forall k :: 0 <= k < |entries| ==>
      Turns(entries)[k] == Turn(if entries[k].value.sender == "user" then "user" else "model", entries[k].value.text)
  {
    if entries != [] {
      var init := entries[..|entries| - 1];
      var last := entries[|entries| - 1];
      assert forall k :: 0 <= k < |init| ==> init[k] == entries[k];
      TurnsOneEach(init);
      var turn := Turn(if last.value.sender == "user" then "user" else "model", last.value.text);
      assert TurnOf(last) == [turn];
      var r := Turns(entries);
      assert r == Turns(init) + [turn];
      forall k | 0 <= k < |entries|
        ensures r[k] == Turn(if entries[k].value.sender == "user" then "user" else "model", entries[k].value.text)
      {
        if k < |init| {
          assert r[k] == Turns(init)[k] && entries[k] == init[k];
        }
      }
    }
  }

  /** `slice(-10)`: the last ten entries, or all of them when fewer. */
  function Window<T>(history: seq<T>): (w: seq<T>)
    ensures |w| <= 10 && |w| <= |history|
    ensures |history| <= 10 ==> w == history
    ensures w == history[|history| - |w|..]
  {
    if |history| <= 10 then history else history[|history| - 10..]
  }

  /** The acknowledgement the model is primed with, naming the user. */
  function Acknowledgement(user: ChatUser): string {
    "Compris! Je suis l'assistant MentorConnect et je vais aider " + user.firstName + "."
  }

  /** The history the model is given when no entry is `null`. */
  function History(preamble: string, user: ChatUser, history: Option<seq<Option<HistoryEntry>>>): seq<Turn> {
    [Turn("user", preamble), Turn("model", Acknowledgement(user))] +
      (if history.Some? then Turns(Window(history.value)) else [])
  }

  /** Builds the history: the instructions with the user's context, the
      acknowledgement, then the turns of the last ten entries; a `null`
      entry among those throws (`ok` false). */
  method BuildHistory(preamble: string, user: ChatUser, history: Option<seq<Option<HistoryEntry>>>)
    returns (ok: bool, chat: seq<Turn>)
    ensures ok <==> history.None? || forall k :: 0 <= k < |Window(history.value)| ==> Window(history.value)[k].Some?
    ensures ok ==> chat == History(preamble, user, history)
    ensures ok ==> 2 <= |chat| <= 12
  {
    chat := [Turn("user", preamble), Turn("model", Acknowledgement(user))];
    ok := true;
    if history.None? {
      return;
    }
    ok, chat := AppendTurns(chat, Window(history.value));
  }

  /** The `forEach` over the window: each entry's turn pushed in order, a
      `null` entry throwing. */
  method AppendTurns(prefix: seq<Turn>, window: seq<Option<HistoryEntry>>) returns (ok: bool, chat: seq<Turn>)
    ensures ok <==> forall k :: 0 <= k < |window| ==> window[k].Some?
    ensures ok ==> chat == prefix + Turns(window)
  {
    chat := prefix;
    var i := 0;
    assert window[..0] == [];
    while i < |window|
      invariant 0 <= i <= |window|
      invariant chat == prefix + Turns(window[..i])
      invariant forall k :: 0 <= k < i ==> window[k].Some?
    {
      if window[i].None? {
        return false, chat;
      }
      TurnsStep(window, i);
      chat := chat + TurnOf(window[i]);
      i := i + 1;
    }
    assert window[..i] == window;
    ok := true;
  }

  /** One entry more adds its turn at the end. */
  lemma TurnsStep(entries: seq<Option<HistoryEntry>>, i: nat)
    requires i < |entries|
    ensures Turns(entries[..i + 1]) == Turns(entries[..i]) + TurnOf(entries[i])
  {
    assert entries[..i + 1][..i] == entries[..i];
  }

  // ---- Fallback answers ----------------------------------------------------

  /** The subject of a fallback answer; two of them greet the user by first
      name. */
  datatype Topic = FindMentor(firstName: string) | ApplyInternship | BookAppointment | Messaging | Menu(firstName: string)

  predicate MentorRule(m: string) {
    Contains(m, "mentor") && (Contains(m, "trouver") || Contains(m, "chercher"))
  }

  predicate InternshipRule(m: string) {
    Contains(m, "stage") && (Contains(m, "postuler") || Contains(m, "candidat"))
  }

  predicate AppointmentRule(m: string) {
    Contains(m, "rendez-vous") || Contains(m, "réserver") || Contains(m, "rdv")
  }

  predicate MessagingRule(m: string) {
    Contains(m, "message") || Contains(m, "discuter") || Contains(m, "chat")
  }

  /** `getFallbackResponse`: the rules are tried on the lower-cased message
      in a fixed order and the first that matches answers; the menu answers
      when none does. */
  function FallbackTopic(message: string, user: ChatUser): (t: Topic)
    ensures var m := Lower(message);
      && (t == FindMentor(user.firstName) <==> MentorRule(m))
      && (t == ApplyInternship <==> !MentorRule(m) && InternshipRule(m))
      && (t == BookAppointment <==> !MentorRule(m) && !InternshipRule(m) && AppointmentRule(m))
      && (t == Messaging <==> !MentorRule(m) && !InternshipRule(m) && !AppointmentRule(m) && MessagingRule(m))
      && (t == Menu(user.firstName) <==>
            !MentorRule(m) && !InternshipRule(m) && !AppointmentRule(m) && !MessagingRule(m))
  {
    var m := Lower(message);
    if MentorRule(m) then FindMentor(user.firstName)
    else if InternshipRule(m) then ApplyInternship
    else if AppointmentRule(m) then BookAppointment
    else if MessagingRule(m) then Messaging
    else Menu(user.firstName)
  }

  lemma LowerTwice(s: string)
    ensures Lower(Lower(s)) == Lower(s)
  {
    assert forall i :: 0 <= i < |s| ==> LowerChar(LowerChar(s[i])) == LowerChar(s[i]);
  }

  /** The rules ignore case: a message and its lower-cased form get the same
      answer. */
  lemma FallbackIgnoresCase(message: string, user: ChatUser)
    ensures FallbackTopic(Lower(message), user) == FallbackTopic(message, user)
  {
    LowerTwice(message);
  }

  // ---- The handler ---------------------------------------------------------

  /** What the handler answers: 400 for a missing message, or a successful
      reply, flagged `fallback` only when the handler itself failed. */
  datatype Answer = ModelText(text: string) | Fallback(topic: Topic)
  datatype Reply = MessageRequired | Success(answer: Answer, fallback: bool)

  /** `chat`: `model` stands for the language model, given the history and
      the message; `None` is a failed call. */
  method Chat(message: Option<string>, history: Option<seq<Option<HistoryEntry>>>, user: ChatUser,
              preamble: string, model: (seq<Turn>, string) -> Option<string>)
    returns (reply: Reply)
    ensures !Truthy(message) <==> reply == MessageRequired
    ensures Truthy(message) ==> reply.Success?
    ensures reply.Success? && reply.fallback ==> reply.answer == Fallback(FallbackTopic(message.value, user))
    ensures reply.Success? && reply.answer.Fallback? ==> reply.answer.topic == FallbackTopic(message.value, user)
    ensures reply.Success? ==> (reply.fallback <==>
      history.Some? && exists k :: 0 <= k < |Window(history.value)| && Window(history.value)[k].None?)
    ensures reply.Success? && !reply.fallback ==>
      var asked := model(History(preamble, user, history), message.value);
      reply.answer == if asked.Some? then ModelText(asked.value) else Fallback(FallbackTopic(message.value, user))
  {
    if !Truthy(message) {
      return MessageRequired;
    }
    var ok, chat := BuildHistory(preamble, user, history);
    if !ok {
      return Success(Fallback(FallbackTopic(message.value, user)), true);
    }
    var answer := model(chat, message.value);
    if answer.Some? {
      reply := Success(ModelText(answer.value), false);
    } else {
      reply := Success(Fallback(FallbackTopic(message.value, user)), false);
    }
  }
}
