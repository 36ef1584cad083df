/** What holds of the chat over any run of events and of what its user does. */
module ChatResults {
  import opened Collections
  import opened Options
  import opened Chat

  datatype Op = Happens(event: Event) | Tick | MarkRead | Dismiss(id: int) | Restore(ids: seq<int>)

  function Do(c: Chat, op: Op): Chat {
    match op
    case Happens(event) => c.Apply(event)
    case Tick => c.Wire()
    case MarkRead => c.MarkRead()
    case Dismiss(id) => c.Dismiss(id)
    case Restore(ids) => c.Restore(ids)
  }

  function Run(c: Chat, ops: seq<Op>): Chat {
    if ops == [] then c else Do(Run(c, ops[..|ops| - 1]), ops[|ops| - 1])
  }

  // ---- the bounded history against the whole log ---------------------------------

  /** The whole conversation since joining, and every message of others not read yet. */
  datatype Book = Book(log: seq<Message>, news: seq<Message>)

  /** Nobody's, or under another name than ours - or any, while we have none. */
  predicate FromAnother(me: string, m: Message) {
    m.name.None? || me == "" || m.name.value != me
  }

  function OthersIn(me: string, arrived: seq<Message>): seq<Message> {
    if arrived == [] then []
    else
      var m := arrived[|arrived| - 1];
      var rest := OthersIn(me, arrived[..|arrived| - 1]);
      if FromAnother(me, m) then rest + [m] else rest
  }

  /** Every entry with the id of a correction carries its text; nothing else moves. */
  function Rewritten(log: seq<Message>, e: Message): (after: seq<Message>)
    ensures |after| == |log|
    ensures forall i :: 0 <= i < |log| ==> after[i] == if log[i].id == e.id then e else log[i]
  {
    seq(|log|, i requires 0 <= i < |log| => if log[i].id == e.id then e else log[i])
  }

  function AllRewritten(log: seq<Message>, corrections: seq<Message>): seq<Message> {
    if corrections == [] then log
    else Rewritten(AllRewritten(log, corrections[..|corrections| - 1]), corrections[|corrections| - 1])
  }

  function Written(book: Book, c: Chat, op: Op): Book {
    match op
    case MarkRead => book.(news := [])
    case Happens(Messages(arrived, corrected)) =>
      Book(AllRewritten(book.log + arrived, corrected), book.news + OthersIn(c.station.displayName, arrived))
    case Happens(State(consented, _, _, _)) => if consented then book else Book([], [])
    case _ => book
  }

  function WholeBook(c: Chat, ops: seq<Op>): Book {
    if ops == [] then Book([], [])
    else
      var before := ops[..|ops| - 1];
      Written(WholeBook(c, before), Run(c, before), ops[|ops| - 1])
  }

  predicate DistinctIds(log: seq<Message>) {
    forall i, j :: 0 <= i < j < |log| ==> log[i].id != log[j].id
  }

  /** No batch brings an id the conversation already has. */
  predicate IdsDistinct(c: Chat, ops: seq<Op>) {
    ops != [] ==>
      var before := ops[..|ops| - 1];
      && IdsDistinct(c, before)
      && (match ops[|ops| - 1]
          case Happens(Messages(arrived, _)) => DistinctIds(WholeBook(c, before).log + arrived)
          case _ => true)
  }

  function HighestId(log: seq<Message>): int {
    if log == [] then 0
    else
      var rest := HighestId(log[..|log| - 1]);
      var id := log[|log| - 1].id;
      if id > rest then id else rest
  }

  /** What is held is the tail of the log, of this length. */
  predicate IsTail(held: seq<Message>, log: seq<Message>) {
    |held| <= |log| && forall i :: 0 <= i < |held| ==> held[i] == log[|log| - |held| + i]
  }

  lemma CorrectedIsRewritten(held: seq<Message>, e: Message)
    requires DistinctIds(held)
    ensures Corrected(held, e) == Rewritten(held, e)
  {
  }

  lemma CorrectionKeepsTail(held: seq<Message>, log: seq<Message>, e: Message)
    requires IsTail(held, log) && DistinctIds(log)
    ensures IsTail(Corrected(held, e), Rewritten(log, e)) && |Corrected(held, e)| == |held|
  {
    var s := |log| - |held|;
    assert DistinctIds(held) by {
      forall i, j | 0 <= i < j < |held|
        ensures held[i].id != held[j].id
      {
        assert held[i] == log[s + i] && held[j] == log[s + j];
      }
    }
    CorrectedIsRewritten(held, e);
    hide DistinctIds, Corrected;
  }

  lemma {:induction false} CorrectionsKeepTail(held: seq<Message>, log: seq<Message>, corrections: seq<Message>)
    requires IsTail(held, log) && DistinctIds(log)
    ensures IsTail(AllCorrected(held, corrections), AllRewritten(log, corrections))
    ensures |AllCorrected(held, corrections)| == |held| && |AllRewritten(log, corrections)| == |log|
    ensures forall i :: 0 <= i < |log| ==> AllRewritten(log, corrections)[i].id == log[i].id
  {
    if corrections != [] {
      var before := corrections[..|corrections| - 1];
      CorrectionsKeepTail(held, log, before);
      CorrectionKeepsTail(AllCorrected(held, before), AllRewritten(log, before), corrections[|corrections| - 1]);
    }
  }

  lemma {:induction false} HighestOfSameIds(one: seq<Message>, other: seq<Message>)
    requires |one| == |other| && forall i :: 0 <= i < |one| ==> one[i].id == other[i].id
    ensures HighestId(one) == HighestId(other)
  {
    if one != [] {
      HighestOfSameIds(one[..|one| - 1], other[..|other| - 1]);
    }
  }

  /** Taking messages in appends them all, raises the id and counts the others' messages. */
  lemma {:induction false} TakenFacts(t: Talk, me: string, arrived: seq<Message>, log: seq<Message>)
    requires t.lastId == HighestId(log)
    ensures var u := t.Taken(me, arrived);
            && u.messages == t.messages + arrived
            && u.lastId == HighestId(log + arrived)
            && u.unread == t.unread + |OthersIn(me, arrived)|
  {
    if arrived == [] {
      assert log + arrived == log;
    } else {
      TakenFacts(t, me, arrived[..|arrived| - 1], log);
      assert (log + arrived)[..|log + arrived| - 1] == log + arrived[..|arrived| - 1];
      assert arrived == arrived[..|arrived| - 1] + [arrived[|arrived| - 1]];
    }
  }

  function Ids(s: seq<Message>): (ids: seq<int>)
    ensures |ids| == |s|
    ensures forall i :: 0 <= i < |s| ==> ids[i] == s[i].id
  {
    seq(|s|, i requires 0 <= i < |s| => s[i].id)
  }

  /** The ids held, the highest one and the count agree with the whole conversation. */
  predicate CountsAgree(c: Chat, book: Book) {
    && Ids(c.talk.messages) == LastOf(Ids(book.log), 500)
    && c.talk.lastId == HighestId(book.log)
    && c.talk.unread == |book.news|
  }

  lemma {:induction false} CorrectionsKeepIds(held: seq<Message>, log: seq<Message>, corrections: seq<Message>)
    ensures Ids(AllCorrected(held, corrections)) == Ids(held)
    ensures Ids(AllRewritten(log, corrections)) == Ids(log)
  {
    if corrections != [] {
      CorrectionsKeepIds(held, log, corrections[..|corrections| - 1]);
    }
  }

  lemma LastIds(s: seq<Message>, n: nat)
    ensures Ids(LastOf(s, n)) == LastOf(Ids(s), n)
  {
  }

  lemma LastOfMore<T>(held: seq<T>, all: seq<T>, more: seq<T>, n: nat)
    requires held == LastOf(all, n)
    ensures LastOf(held + more, n) == LastOf(all + more, n)
  {
  }

  lemma BatchKeepsIds(held: seq<Message>, log: seq<Message>, arrived: seq<Message>, corrected: seq<Message>)
    requires Ids(held) == LastOf(Ids(log), MAX_HELD)
    ensures Ids(LastOf(AllCorrected(held + arrived, corrected), MAX_HELD))
            == LastOf(Ids(AllRewritten(log + arrived, corrected)), MAX_HELD)
    ensures HighestId(AllRewritten(log + arrived, corrected)) == HighestId(log + arrived)
  {
    CorrectionsKeepIds(held + arrived, log + arrived, corrected);
    LastIds(AllCorrected(held + arrived, corrected), MAX_HELD);
    assert Ids(held + arrived) == Ids(held) + Ids(arrived) && Ids(log + arrived) == Ids(log) + Ids(arrived);
    hide LastOf, HighestId;
    LastOfMore(Ids(held), Ids(log), Ids(arrived), MAX_HELD);
    SameIdsSameHighest(log + arrived, AllRewritten(log + arrived, corrected));
  }

  lemma MessagesCount(c: Chat, book: Book, arrived: seq<Message>, corrected: seq<Message>)
    requires CountsAgree(c, book)
    ensures CountsAgree(c.Apply(Messages(arrived, corrected)), Written(book, c, Happens(Messages(arrived, corrected))))
  {
    hide LastOf, HighestId, AllCorrected, AllRewritten, Talk.Taken, OthersIn, Ids;
    TakenFacts(c.talk, c.station.displayName, arrived, book.log);
    BatchKeepsIds(c.talk.messages, book.log, arrived, corrected);
  }

  lemma SameIdsSameHighest(one: seq<Message>, other: seq<Message>)
    requires Ids(one) == Ids(other)
    ensures HighestId(one) == HighestId(other)
  {
    assert |one| == |other|;
    forall i | 0 <= i < |one|
      ensures one[i].id == other[i].id
    {
      assert Ids(one)[i] == Ids(other)[i];
    }
    HighestOfSameIds(one, other);
  }

  lemma OthersCount(c: Chat, book: Book, op: Op)
    requires CountsAgree(c, book) && !(op.Happens? && op.event.Messages?)
    ensures CountsAgree(Do(c, op), Written(book, c, op))
  {
    hide Folding.AskedAgain;
  }

  /**
   In every run, whatever ids come and however often: the ids held are the last 500 delivered since
   joining, `last_id` the highest of them all, and `unread` one for each message of another since the
   last reading or leaving.
   */
  lemma {:induction false} WindowKeepsCount(ops: seq<Op>)
    ensures CountsAgree(Run(Default(), ops), WholeBook(Default(), ops))
  {
    if ops != [] {
      var before := ops[..|ops| - 1];
      WindowKeepsCount(before);
      var c, book, op := Run(Default(), before), WholeBook(Default(), before), ops[|ops| - 1];
      hide CountsAgree, Written, Chat.Apply;
      if op.Happens? && op.event.Messages? {
        MessagesCount(c, book, op.event.arrived, op.event.corrected);
      } else {
        OthersCount(c, book, op);
      }
    }
  }

  // ---- the texts after corrections -------------------------------------------------

  lemma TailsEndAlike(held: seq<Message>, log: seq<Message>, n: nat)
    requires IsTail(held, log) && (|held| == |log| || |held| >= n)
    ensures LastOf(held, n) == LastOf(log, n)
  {
  }

  lemma BatchShown(held: seq<Message>, log: seq<Message>, arrived: seq<Message>, corrected: seq<Message>)
    requires held == LastOf(log, MAX_HELD) && DistinctIds(log + arrived)
    ensures LastOf(AllCorrected(held + arrived, corrected), MAX_HELD)
            == LastOf(AllRewritten(log + arrived, corrected), MAX_HELD)
    ensures DistinctIds(AllRewritten(log + arrived, corrected))
  {
    assert IsTail(held + arrived, log + arrived);
    assert |held| == |log| || |held| == MAX_HELD;
    hide IsTail, LastOf;
    CorrectionsKeepTail(held + arrived, log + arrived, corrected);
    TailsEndAlike(AllCorrected(held + arrived, corrected), AllRewritten(log + arrived, corrected), MAX_HELD);
  }

  lemma MessagesShown(c: Chat, log: seq<Message>, arrived: seq<Message>, corrected: seq<Message>)
    requires c.talk.messages == LastOf(log, MAX_HELD) && DistinctIds(log + arrived)
    ensures var rewritten := AllRewritten(log + arrived, corrected);
            && c.Apply(Messages(arrived, corrected)).talk.messages == LastOf(rewritten, MAX_HELD)
            && DistinctIds(rewritten)
  {
    hide LastOf, AllCorrected, AllRewritten, Talk.Taken, DistinctIds;
    TakenMessages(c.talk, c.station.displayName, arrived);
    BatchShown(c.talk.messages, log, arrived, corrected);
  }

  lemma {:induction false} TakenMessages(t: Talk, me: string, arrived: seq<Message>)
    ensures t.Taken(me, arrived).messages == t.messages + arrived
  {
    if arrived != [] {
      TakenMessages(t, me, arrived[..|arrived| - 1]);
      assert arrived == arrived[..|arrived| - 1] + [arrived[|arrived| - 1]];
    }
  }

  /** With no id delivered twice the messages held are the last 500 of the log, every correction in place. */
  lemma {:induction false} WindowShowsTheLog(ops: seq<Op>)
    requires IdsDistinct(Default(), ops)
    ensures Run(Default(), ops).talk.messages == LastOf(WholeBook(Default(), ops).log, 500)
    ensures DistinctIds(WholeBook(Default(), ops).log)
  {
    if ops != [] {
      var before := ops[..|ops| - 1];
      WindowShowsTheLog(before);
      var c, book, op := Run(Default(), before), WholeBook(Default(), before), ops[|ops| - 1];
      if op.Happens? && op.event.Messages? {
        MessagesShown(c, book.log, op.event.arrived, op.event.corrected);
      }
    }
  }

  /** One correction puts its text wherever its id is held exactly when all but the first such copy have it already. */
  lemma CorrectsAllIff(held: seq<Message>, e: Message)
    ensures Corrected(held, e) == Rewritten(held, e) <==>
            forall i :: FirstWith(held, e.id) < i < |held| && held[i].id == e.id ==> held[i] == e
  {
    var first := FirstWith(held, e.id);
    if Corrected(held, e) == Rewritten(held, e) {
      forall i | first < i < |held| && held[i].id == e.id
        ensures held[i] == e
      {
        assert Corrected(held, e)[i] == Rewritten(held, e)[i];
      }
    } else {
      var i :| 0 <= i < |held| && Corrected(held, e)[i] != Rewritten(held, e)[i];
    }
  }

  function Said(body: string): Message {
    Message(1, 0, None, body, None, None, false)
  }

  lemma OneMore(ops: seq<Op>, op: Op)
    ensures Run(Default(), ops + [op]) == Do(Run(Default(), ops), op)
    ensures WholeBook(Default(), ops + [op]) == Written(WholeBook(Default(), ops), Run(Default(), ops), op)
  {
    assert (ops + [op])[..|ops|] == ops;
  }

  const Delivered := Happens(Messages([Said("a")], []))
  const Corrects := Happens(Messages([], [Said("b")]))

  lemma DeliveredOnce(c: Chat, book: Book)
    requires |c.talk.messages| < MAX_HELD
    ensures Do(c, Delivered).talk.messages == c.talk.messages + [Said("a")]
    ensures Written(book, c, Delivered).log == book.log + [Said("a")]
  {
    TakenMessages(c.talk, c.station.displayName, [Said("a")]);
    hide Talk.Taken, OthersIn;
  }

  lemma DeliveredTwice()
    ensures Run(Default(), [Delivered, Delivered]).talk.messages == [Said("a"), Said("a")]
    ensures WholeBook(Default(), [Delivered, Delivered]).log == [Said("a"), Said("a")]
  {
    hide Do, Written;
    OneMore([], Delivered);
    OneMore([Delivered], Delivered);
    assert [] + [Delivered] == [Delivered] && [Delivered] + [Delivered] == [Delivered, Delivered];
    DeliveredOnce(Default(), WholeBook(Default(), []));
    DeliveredOnce(Run(Default(), [Delivered]), WholeBook(Default(), [Delivered]));
  }

  /** The same poll answered twice, then a correction: the second copy keeps the old text. */
  lemma SecondCopyKeepsOldText()
    ensures var ops := [Delivered, Delivered, Corrects];
            && Run(Default(), ops).talk.messages == [Said("b"), Said("a")]
            && WholeBook(Default(), ops).log == [Said("b"), Said("b")]
  {
    DeliveredTwice();
    OneMore([Delivered, Delivered], Corrects);
    assert [Delivered, Delivered] + [Corrects] == [Delivered, Delivered, Corrects];
    var copies := [Said("a"), Said("a")];
    assert copies + [] == copies;
    hide Run, WholeBook;
    OneCorrection(copies, Said("b"));
  }

  lemma OneCorrection(log: seq<Message>, e: Message)
    ensures AllRewritten(log, [e]) == Rewritten(log, e) && AllCorrected(log, [e]) == Corrected(log, e)
  {
    assert [e][..0] == [];
  }

  // ---- folding answers away ---------------------------------------------------------

  lemma {:induction false} UnseenExactly(answers: seq<Answer>, seen: set<int>, a: Answer)
    ensures a in Unseen(answers, seen) <==> a in answers && a.id !in seen
  {
    if answers != [] {
      UnseenExactly(answers[..|answers| - 1], seen, a);
      assert answers == answers[..|answers| - 1] + [answers[|answers| - 1]];
    }
  }

  function CountOf(commands: seq<Command>, id: int): nat {
    if commands == [] then 0
    else CountOf(commands[..|commands| - 1], id) + if commands[|commands| - 1] == DismissAnswer(id) then 1 else 0
  }

  function Bit(b: bool): nat {
    if b then 1 else 0
  }

  lemma ToldCounts(f: Folding, wired: bool, told: int, id: int)
    ensures CountOf(f.Told(wired, told).commands, id) == CountOf(f.commands, id) + Bit(wired && told == id)
  {
    if wired {
      assert f.Told(wired, told).commands[..|f.commands|] == f.commands;
    }
  }

  predicate Listed(list: seq<Answer>, id: int) {
    exists i :: 0 <= i < |list| && list[i].id == id
  }

  /** An answer still listed although folded away is asked away exactly once more, ever. */
  lemma {:induction false} AskedOnceMore(f: Folding, wired: bool, list: seq<Answer>, id: int)
    ensures var g := f.AskedAgain(wired, list);
            && g.seen == f.seen && g.answers == f.answers
            && (id in g.asked <==> id in f.asked || (id in f.seen && Listed(list, id)))
            && CountOf(g.commands, id) ==
               CountOf(f.commands, id) + Bit(wired && id in f.seen && id !in f.asked && Listed(list, id))
  {
    if list != [] {
      var n := |list| - 1;
      AskedOnceMore(f, wired, list[..n], id);
      var g := f.AskedAgain(wired, list[..n]);
      ToldCounts(g.(asked := g.asked + {list[n].id}), wired, list[n].id, id);
      assert Listed(list, id) <==> Listed(list[..n], id) || list[n].id == id by {
        if Listed(list[..n], id) {
          var i :| 0 <= i < n && list[..n][i].id == id;
          assert list[i].id == id;
        }
      }
    }
  }

  /** How often an answer may have been asked away, going by what the model remembers. */
  predicate AsksRemembered(c: Chat, id: int) {
    && CountOf(c.folding.commands, id) <= Bit(id in c.folding.seen) + Bit(id in c.folding.asked)
    && (id in c.folding.asked ==> id in c.folding.seen)
  }

  lemma DoRemembers(c: Chat, op: Op, id: int)
    requires AsksRemembered(c, id)
    ensures AsksRemembered(Do(c, op), id)
    ensures id in c.folding.seen ==> id in Do(c, op).folding.seen
  {
    hide Talk.Taken, Talk.Updated, Folding.AskedAgain, CountOf;
    match op
    case Happens(Answers(list)) => AskedOnceMore(c.folding, c.wired, list, id);
    case Dismiss(away) => ToldCounts(c.folding.(seen := c.folding.seen + {away}), c.wired, away, id);
    case _ =>
  }

  /** Over any run the service is asked to put one answer aside at most twice. */
  lemma {:induction false} AsksAtMostTwice(ops: seq<Op>, id: int)
    ensures AsksRemembered(Run(Default(), ops), id)
    ensures CountOf(Run(Default(), ops).folding.commands, id) <= 2
  {
    if ops != [] {
      AsksAtMostTwice(ops[..|ops| - 1], id);
      DoRemembers(Run(Default(), ops[..|ops| - 1]), ops[|ops| - 1], id);
    }
  }

  /** Folding away is final: whatever happens after, no answer with that id is shown again. */
  lemma {:induction false} FoldedAwayForGood(earlier: seq<Op>, id: int, later: seq<Op>)
    requires id in Run(Default(), earlier).folding.seen
    ensures id in Run(Run(Default(), earlier), later).folding.seen
    ensures forall a :: a in Run(Run(Default(), earlier), later).folding.Unread() ==> a.id != id
  {
    var c := Run(Default(), earlier);
    if later != [] {
      FoldedAwayForGood(earlier, id, later[..|later| - 1]);
      var d, op := Run(c, later[..|later| - 1]), later[|later| - 1];
      if op.Happens? && op.event.Answers? {
        AskedOnceMore(d.folding, d.wired, op.event.list, id);
      }
    }
    var f := Run(c, later).folding;
    forall a | a in f.Unread()
      ensures a.id != id
    {
      UnseenExactly(f.answers, f.seen, a);
    }
  }

  lemma {:induction false} SortedFacts(s: set<int>)
    ensures forall x :: x in Sorted(s) <==> x in s
    ensures forall i, j :: 0 <= i < j < |Sorted(s)| ==> Sorted(s)[i] < Sorted(s)[j]
  {
    if s != {} {
      SortedFacts(s - {Least(s)});
      assert forall i :: 0 < i < |Sorted(s)| ==> Sorted(s)[i] == Sorted(s - {Least(s)})[i - 1];
      assert forall i :: 0 < i < |Sorted(s)| ==> Sorted(s)[i] in Sorted(s - {Least(s)});
    }
  }

  /** A restart changes nothing: the ids written down give a blank model, ticked yet or not, the same unread list. */
  lemma RestartShowsTheSame(c: Chat, ticked: bool, list: seq<Answer>)
    ensures var blank := if ticked then Default().Wire() else Default();
            var restarted := blank.Restore(c.SeenIds());
            && restarted.folding.seen == c.folding.seen
            && restarted.Apply(Answers(list)).folding.Unread() == c.Apply(Answers(list)).folding.Unread()
  {
    SortedFacts(c.folding.seen);
    var restarted := (if ticked then Default().Wire() else Default()).Restore(c.SeenIds());
    assert restarted.folding.seen == c.folding.seen;
    AskedOnceMore(restarted.folding, ticked, list, 0);
    AskedOnceMore(c.folding, c.wired, list, 0);
  }
}
