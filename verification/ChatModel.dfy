/** The chat as state: the conversation held, what is unread, and the answers folded away. */
module Chat {
  import opened Collections
  import opened Options

  const MAX_HELD := 500

  datatype Message = Message(
    id: int, at: int, name: Option<string>, body: string,
    replyName: Option<string>, replyText: Option<string>, edited: bool)

  datatype Answer = Answer(id: int, at: int, body: string)

  datatype OfflineReason = NoRelay | NoTicket | Unreachable

  datatype Event =
    | State(consented: bool, displayName: Option<string>, consentTextVersion: int, reportsLeft: int)
    | Messages(arrived: seq<Message>, corrected: seq<Message>)
    | DiagnosisSent
    | Answers(list: seq<Answer>)
    | Failed(why: string)
    | NoChange
    | Offline(reason: OfflineReason)

  datatype Command = DismissAnswer(id: int)

  /** The conversation: what is held, the highest id delivered, and what is unread. */
  datatype Talk = Talk(messages: seq<Message>, lastId: int, unread: nat)
  {
    /** The new messages taken in one by one; `me` is the name others see. */
    function Taken(me: string, arrived: seq<Message>): Talk {
      if arrived == [] then this
      else
        var t := Taken(me, arrived[..|arrived| - 1]);
        var m := arrived[|arrived| - 1];
        Talk(t.messages + [m],
             if m.id > t.lastId then m.id else t.lastId,
             if IsMine(me, m) then t.unread else t.unread + 1)
    }

    /** Corrections in place, and no more held than `MAX_HELD`. */
    function Updated(corrected: seq<Message>): Talk {
      this.(messages := LastOf(AllCorrected(messages, corrected), MAX_HELD))
    }
  }

  /** The answers, which of them are folded away, and which were asked away a second time. */
  datatype Folding = Folding(answers: seq<Answer>, seen: set<int>, asked: set<int>, commands: seq<Command>)
  {
    function Told(wired: bool, id: int): Folding {
      if wired then this.(commands := commands + [DismissAnswer(id)]) else this
    }

    /** Folded-away answers the service still lists are asked away again, once each. */
    function AskedAgain(wired: bool, list: seq<Answer>): Folding {
      if list == [] then this
      else
        var f := AskedAgain(wired, list[..|list| - 1]);
        var id := list[|list| - 1].id;
        if id in f.seen && id !in f.asked then f.(asked := f.asked + {id}).Told(wired, id) else f
    }

    function Dismiss(wired: bool, id: int): Folding {
      if id in seen then this else this.(seen := seen + {id}).Told(wired, id)
    }

    function Unread(): seq<Answer> {
      Unseen(answers, seen)
    }
  }

  datatype Station = Station(consented: Option<bool>, displayName: string, consentTextVersion: int,
                             reportsLeft: int, diagnosisSent: bool)

  datatype Chat = Chat(wired: bool, station: Station, talk: Talk, folding: Folding,
                       offline: Option<OfflineReason>, error: Option<string>)
  {
    function Stated(consented: bool, name: Option<string>, version: int, left: int): Chat {
      var s := Station(Some(consented), if name.Some? then name.value else station.displayName, version, left,
                       station.diagnosisSent);
      this.(offline := None, station := s, talk := if consented then talk else Talk([], 0, 0))
    }

    function Apply(event: Event): Chat {
      var c := if event.Failed? || event.Offline? || event.NoChange? then this else this.(error := None);
      match event
      case State(consented, name, version, left) => c.Stated(consented, name, version, left)
      case NoChange => c
      case Messages(arrived, corrected) =>
        c.(offline := None, talk := talk.Taken(station.displayName, arrived).Updated(corrected))
      case Answers(list) =>
        c.(offline := None, folding := folding.AskedAgain(wired, list).(answers := list))
      case DiagnosisSent =>
        c.(offline := None,
           station := station.(diagnosisSent := true,
                               reportsLeft := if station.reportsLeft > 0 then station.reportsLeft - 1 else station.reportsLeft))
      case Failed(why) => c.(offline := None, error := Some(why))
      case Offline(reason) => c.(offline := Some(reason))
    }

    /** The first `tick` starts the worker; what was sent before it went nowhere. */
    function Wire(): Chat {
      this.(wired := true)
    }

    function MarkRead(): Chat {
      this.(talk := talk.(unread := 0))
    }

    function Dismiss(id: int): Chat {
      this.(folding := folding.Dismiss(wired, id))
    }

    function Restore(ids: seq<int>): Chat {
      this.(folding := folding.(seen := folding.seen + set id | id in ids))
    }

    function SeenIds(): seq<int> {
      Sorted(folding.seen)
    }
  }

  function Default(): Chat {
    Chat(false, Station(None, "", 1, -1, false), Talk([], 0, 0), Folding([], {}, {}, []), Some(NoRelay), None)
  }

  predicate IsMine(me: string, m: Message) {
    me != "" && m.name == Some(me)
  }

  /** The place of the first message with this id, or the length. */
  function FirstWith(messages: seq<Message>, id: int): (i: nat)
    ensures i <= |messages|
    ensures i < |messages| ==> messages[i].id == id
    ensures forall k :: 0 <= k < i ==> messages[k].id != id
  {
    if messages == [] || messages[0].id == id then 0 else 1 + FirstWith(messages[1..], id)
  }

  /** A correction lands in place, or nowhere when the message is not held. */
  function Corrected(messages: seq<Message>, e: Message): seq<Message> {
    var i := FirstWith(messages, e.id);
    if i < |messages| then messages[i := e] else messages
  }

  function AllCorrected(messages: seq<Message>, corrections: seq<Message>): seq<Message> {
    if corrections == [] then messages
    else Corrected(AllCorrected(messages, corrections[..|corrections| - 1]), corrections[|corrections| - 1])
  }

  function Unseen(answers: seq<Answer>, seen: set<int>): seq<Answer> {
    if answers == [] then []
    else
      var a := answers[|answers| - 1];
      var rest := Unseen(answers[..|answers| - 1], seen);
      if a.id in seen then rest else rest + [a]
  }

  /** `sort_unstable` over the ids of a set. */
  function Sorted(s: set<int>): seq<int> {
    if s == {} then [] else [Least(s)] + Sorted(s - {Least(s)})
  }

  class ChatModel {
    var wired: bool
    var commands: seq<Command>
    var consented: Option<bool>
    var displayName: string
    var consentTextVersion: int
    var messages: seq<Message>
    var lastId: int
    var unread: nat
    var dismissAsked: set<int>
    var offline: Option<OfflineReason>
    var error: Option<string>
    var reportsLeft: int
    var answers: seq<Answer>
    var answersSeen: set<int>
    var diagnosisSent: bool

    function Value(): Chat
      reads this
    {
      Chat(wired, Station(consented, displayName, consentTextVersion, reportsLeft, diagnosisSent),
           Talk(messages, lastId, unread), Folding(answers, answersSeen, dismissAsked, commands), offline, error)
    }

    constructor ()
      ensures Value() == Default()
    {
      wired, commands := false, [];
      consented, displayName, consentTextVersion := None, "", 1;
      messages, lastId, unread := [], 0, 0;
      dismissAsked, offline, error, reportsLeft := {}, Some(NoRelay), None, -1;
      answers, answersSeen, diagnosisSent := [], {}, false;
    }

    method Tick()
      modifies `wired
      ensures Value() == old(Value()).Wire()
    {
      if !wired {
        wired := true;
      }
    }

    method SendDismiss(id: int)
      modifies `commands
      ensures Value() == old(Value()).(folding := old(Value()).folding.Told(wired, id))
    {
      if wired {
        commands := commands + [DismissAnswer(id)];
      }
    }

    method Apply(event: Event)
      modifies this
      ensures Value() == old(Value()).Apply(event)
    {
      hide Talk.Taken, Folding.AskedAgain, Talk.Updated, Chat.Stated;
      if !(event.Failed? || event.Offline? || event.NoChange?) {
        error := None;
      }
      match event {
        case State(agreed, name, version, left) =>
          TakeState(agreed, name, version, left);
        case NoChange =>
        case Messages(arrived, corrected) =>
          offline := None;
          TakeIn(arrived);
          CorrectInPlace(corrected);
        case Answers(list) =>
          AskAgain(list);
          offline := None;
          answers := list;
        case DiagnosisSent =>
          offline := None;
          diagnosisSent := true;
          if reportsLeft > 0 {
            reportsLeft := reportsLeft - 1;
          }
        case Failed(why) =>
          offline := None;
          error := Some(why);
        case Offline(reason) =>
          offline := Some(reason);
      }
    }

    method TakeState(agreed: bool, name: Option<string>, version: int, left: int)
      modifies this
      ensures Value() == old(Value()).Stated(agreed, name, version, left)
    {
      offline := None;
      reportsLeft := left;
      consented := Some(agreed);
      if name.Some? {
        displayName := name.value;
      }
      consentTextVersion := version;
      if !agreed {
        messages, lastId, unread := [], 0, 0;
      }
    }

    method TakeIn(arrived: seq<Message>)
      modifies `messages, `lastId, `unread
      ensures Talk(messages, lastId, unread) == old(Talk(messages, lastId, unread)).Taken(displayName, arrived)
    {
      for i := 0 to |arrived|
        modifies `messages, `lastId, `unread
        invariant Talk(messages, lastId, unread) == old(Talk(messages, lastId, unread)).Taken(displayName, arrived[..i])
      {
        assert arrived[..i + 1][..i] == arrived[..i];
        var m := arrived[i];
        lastId := if m.id > lastId then m.id else lastId;
        if !IsMine(displayName, m) {
          unread := unread + 1;
        }
        messages := messages + [m];
      }
      assert arrived[..|arrived|] == arrived;
    }

    method CorrectInPlace(corrected: seq<Message>)
      modifies `messages
      ensures Talk(messages, lastId, unread) == old(Talk(messages, lastId, unread)).Updated(corrected)
    {
      for i := 0 to |corrected|
        modifies `messages
        invariant messages == AllCorrected(old(messages), corrected[..i])
      {
        assert corrected[..i + 1][..i] == corrected[..i];
        var held := FirstWith(messages, corrected[i].id);
        if held < |messages| {
          messages := messages[held := corrected[i]];
        }
      }
      assert corrected[..|corrected|] == corrected;
      if |messages| > MAX_HELD {
        var drop := |messages| - MAX_HELD;
        messages := messages[drop..];
      }
    }

    method AskAgain(list: seq<Answer>)
      modifies `dismissAsked, `commands
      ensures Value().folding == old(Value()).folding.AskedAgain(wired, list)
    {
      for i := 0 to |list|
        modifies `dismissAsked, `commands
        invariant Value().folding == old(Value()).folding.AskedAgain(wired, list[..i])
      {
        assert list[..i + 1][..i] == list[..i];
        var id := list[i].id;
        if id in answersSeen && id !in dismissAsked {
          dismissAsked := dismissAsked + {id};
          SendDismiss(id);
        }
      }
      assert list[..|list|] == list;
    }

    method MarkRead()
      modifies `unread
      ensures Value() == old(Value()).MarkRead()
    {
      unread := 0;
    }

    method Dismiss(id: int)
      modifies this
      ensures Value() == old(Value()).Dismiss(id)
    {
      if id !in answersSeen {
        answersSeen := answersSeen + {id};
        SendDismiss(id);
      }
    }

    method RestoreSeen(ids: seq<int>)
      modifies `answersSeen
      ensures Value() == old(Value()).Restore(ids)
    {
      answersSeen := answersSeen + set id | id in ids;
    }

    method UnreadAnswers() returns (unread: seq<Answer>)
      ensures unread == Value().folding.Unread()
    {
      unread := [];
      for i := 0 to |answers|
        invariant unread == Unseen(answers[..i], answersSeen)
      {
        assert answers[..i + 1][..i] == answers[..i];
        if answers[i].id !in answersSeen {
          unread := unread + [answers[i]];
        }
      }
      assert answers[..|answers|] == answers;
    }
  }
}
