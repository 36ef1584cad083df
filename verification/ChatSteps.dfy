/** What its user sees of the chat: the answers on screen after folding some away, and the last word of the service. */
module ChatSteps {
  import opened Options
  import opened Chat
  import opened ChatResults

  // ---- answers folded away ------------------------------------------------------------

  /** The answers whose ids are not among these, in their order. */
  function NotIn(answers: seq<Answer>, ids: seq<int>): seq<Answer> {
    if answers == [] then []
    else (if answers[0].id in ids then [] else [answers[0]]) + NotIn(answers[1..], ids)
  }

  lemma {:induction false} NotInMore(answers: seq<Answer>, a: Answer, ids: seq<int>)
    ensures NotIn(answers + [a], ids) == NotIn(answers, ids) + if a.id in ids then [] else [a]
  {
    if answers == [] {
      assert NotIn([], ids) == [] && ([a])[1..] == [];
    } else {
      NotInMore(answers[1..], a, ids);
      assert (answers + [a])[1..] == answers[1..] + [a];
    }
  }

  lemma {:induction false} UnseenInOrder(answers: seq<Answer>, seen: set<int>, ids: seq<int>)
    requires forall id :: id in ids <==> id in seen
    ensures Unseen(answers, seen) == NotIn(answers, ids)
  {
    if answers != [] {
      var n := |answers| - 1;
      UnseenInOrder(answers[..n], seen, ids);
      NotInMore(answers[..n], answers[n], ids);
      assert answers == answers[..n] + [answers[n]];
    }
  }

  /** What is shown: the answers of the service in its order, but for the ids written down as folded away. */
  lemma ShownInOrder(c: Chat)
    ensures c.folding.Unread() == NotIn(c.folding.answers, c.SeenIds())
  {
    SortedFacts(c.folding.seen);
    UnseenInOrder(c.folding.answers, c.folding.seen, c.SeenIds());
  }

  lemma {:induction false} NotInTwice(answers: seq<Answer>, ids: seq<int>, more: seq<int>, all: seq<int>)
    requires forall id :: id in all <==> id in ids || id in more
    ensures NotIn(answers, all) == NotIn(NotIn(answers, ids), more)
  {
    if answers != [] {
      NotInTwice(answers[1..], ids, more, all);
      var a, rest := answers[0], NotIn(answers[1..], ids);
      if a.id in ids {
        assert NotIn(answers, ids) == rest;
      } else {
        assert NotIn(answers, ids) == [a] + rest && ([a] + rest)[1..] == rest;
      }
    }
  }

  /**
   Folding an answer away: no answer with that id is shown any more and the others stay in their
   order, the id is written down, the service is asked once if there is one and the id is new, and not
   at all otherwise; nothing else changes.
   */
  lemma DismissFoldsAway(c: Chat, id: int)
    ensures var d := c.Dismiss(id);
            && d.folding.Unread() == NotIn(c.folding.Unread(), [id])
            && (forall a :: a in d.folding.Unread() ==> a.id != id)
            && (forall other :: other in d.SeenIds() <==> other == id || other in c.SeenIds())
            && d.folding.commands == c.folding.commands +
                                     (if c.wired && id !in c.SeenIds() then [DismissAnswer(id)] else [])
            && d == c.(folding := d.folding)
            && d.folding.answers == c.folding.answers && d.folding.asked == c.folding.asked
  {
    var d := c.Dismiss(id);
    SortedFacts(c.folding.seen);
    SortedFacts(d.folding.seen);
    ShownInOrder(c);
    ShownInOrder(d);
    hide Sorted;
    NotInTwice(c.folding.answers, c.SeenIds(), [id], d.SeenIds());
    forall a | a in d.folding.Unread()
      ensures a.id != id
    {
      UnseenExactly(d.folding.answers, d.folding.seen, a);
    }
  }

  lemma DismissAsksOnce(c: Chat, id: int, other: int)
    ensures CountOf(c.Dismiss(id).folding.commands, other) ==
            CountOf(c.folding.commands, other) + if other == id && c.wired && id !in c.SeenIds() then 1 else 0
  {
    SortedFacts(c.folding.seen);
    ToldCounts(c.folding.(seen := c.folding.seen + {id}), c.wired, id, other);
  }

  /** Taking back what was written down folds those away too, and asks the service for nothing. */
  lemma RestoreFoldsAway(c: Chat, ids: seq<int>)
    ensures var d := c.Restore(ids);
            && d.folding.Unread() == NotIn(c.folding.Unread(), ids)
            && (forall other :: other in d.SeenIds() <==> other in ids || other in c.SeenIds())
            && d == c.(folding := d.folding) && d.folding == c.folding.(seen := d.folding.seen)
  {
    var d := c.Restore(ids);
    SortedFacts(c.folding.seen);
    SortedFacts(d.folding.seen);
    ShownInOrder(c);
    ShownInOrder(d);
    hide Sorted;
    NotInTwice(c.folding.answers, c.SeenIds(), ids, d.SeenIds());
  }

  lemma {:induction false} RunOn(c: Chat, ops: seq<Op>, more: seq<Op>)
    ensures Run(c, ops + more) == Run(Run(c, ops), more)
  {
    hide Do;
    if more == [] {
      assert ops + more == ops;
    } else {
      var n := |more| - 1;
      RunOn(c, ops, more[..n]);
      assert (ops + more)[..|ops| + n] == ops + more[..n];
    }
  }

  /** In every run: an answer once dismissed is not shown again, whatever happened before and happens after. */
  lemma DismissedNeverShows(earlier: seq<Op>, id: int, later: seq<Op>)
    ensures forall a :: a in Run(Default(), earlier + [Dismiss(id)] + later).folding.Unread() ==> a.id != id
  {
    var c := Run(Default(), earlier);
    RunOn(Default(), earlier, [Dismiss(id)]);
    RunOn(Default(), earlier + [Dismiss(id)], later);
    assert ([Dismiss(id)])[..0] == [];
    assert Run(c, [Dismiss(id)]) == c.Dismiss(id);
    SortedFacts(c.Dismiss(id).folding.seen);
    DismissFoldsAway(c, id);
    FoldedAwayForGood(earlier + [Dismiss(id)], id, later);
  }

  // ---- the last word of the service -------------------------------------------------------

  datatype Kind = Heard | HeardFromService | Listed | Stated | Named | Reported

  predicate Counts(kind: Kind, e: Event) {
    match kind
    case Heard => !e.NoChange?
    case HeardFromService => !e.NoChange? && !e.Offline?
    case Listed => e.Answers?
    case Stated => e.State?
    case Named => e.State? && e.displayName.Some?
    case Reported => e.DiagnosisSent?
  }

  /** The last event of this kind in a run. */
  function LastWord(ops: seq<Op>, kind: Kind): Option<Event> {
    if ops == [] then None
    else
      var op := ops[|ops| - 1];
      if op.Happens? && Counts(kind, op.event) then Some(op.event) else LastWord(ops[..|ops| - 1], kind)
  }

  /** How many reports were taken in since the service last said how many are left. */
  function ReportsSince(ops: seq<Op>): nat {
    if ops == [] then 0
    else
      var (op, before) := (ops[|ops| - 1], ReportsSince(ops[..|ops| - 1]));
      if op.Happens? && op.event.State? then 0
      else if op.Happens? && op.event.DiagnosisSent? then before + 1
      else before
  }

  /** Out of reach exactly when the last thing heard was that: until then there is no relay. */
  predicate OfflineStands(c: Chat, ops: seq<Op>) {
    c.offline == match LastWord(ops, Heard)
                 case None => Some(NoRelay)
                 case Some(Offline(why)) => Some(why)
                 case Some(_) => None
  }

  /** A refusal stands until the service answers anything else; silence does not end it. */
  predicate RefusalStands(c: Chat, ops: seq<Op>) {
    c.error == match LastWord(ops, HeardFromService)
               case Some(Failed(why)) => Some(why)
               case _ => None
  }

  predicate AnswersStand(c: Chat, ops: seq<Op>) {
    c.folding.answers == match LastWord(ops, Kind.Listed)
                         case Some(Answers(list)) => list
                         case _ => []
  }

  /** What the service last said of the station; a name stays until it says another. */
  predicate StationStands(c: Chat, ops: seq<Op>) {
    && (match LastWord(ops, Stated)
        case Some(State(consented, _, version, left)) =>
          && c.station.consented == Some(consented) && c.station.consentTextVersion == version
          && c.station.reportsLeft ==
             if left <= 0 then left else if left >= ReportsSince(ops) then left - ReportsSince(ops) else 0
        case _ => c.station.consented == None && c.station.consentTextVersion == 1 && c.station.reportsLeft == -1)
    && c.station.displayName ==
       (match LastWord(ops, Named)
        case Some(State(_, Some(name), _, _)) => name
        case _ => "")
    && (c.station.diagnosisSent <==> LastWord(ops, Reported).Some?)
  }

  lemma StationKept(c: Chat, ops: seq<Op>, op: Op)
    requires StationStands(c, ops)
    ensures StationStands(Do(c, op), ops + [op])
  {
    assert (ops + [op])[..|ops|] == ops;
    hide Talk.Taken, Talk.Updated, Folding.AskedAgain;
  }

  lemma WordsKept(c: Chat, ops: seq<Op>, op: Op)
    requires OfflineStands(c, ops) && RefusalStands(c, ops) && AnswersStand(c, ops)
    ensures OfflineStands(Do(c, op), ops + [op])
    ensures RefusalStands(Do(c, op), ops + [op])
    ensures AnswersStand(Do(c, op), ops + [op])
  {
    assert (ops + [op])[..|ops|] == ops;
    hide Talk.Taken, Talk.Updated;
    if op.Happens? && op.event.Answers? {
      AskedOnceMore(c.folding, c.wired, op.event.list, 0);
    }
  }

  /** In every run what is shown beside the conversation is the last word of the service on it. */
  lemma {:induction false} LastWordStands(ops: seq<Op>)
    ensures OfflineStands(Run(Default(), ops), ops)
    ensures RefusalStands(Run(Default(), ops), ops)
    ensures AnswersStand(Run(Default(), ops), ops)
    ensures StationStands(Run(Default(), ops), ops)
  {
    if ops != [] {
      var before, op := ops[..|ops| - 1], ops[|ops| - 1];
      LastWordStands(before);
      assert before + [op] == ops;
      hide Do, OfflineStands, RefusalStands, AnswersStand, StationStands;
      WordsKept(Run(Default(), before), before, op);
      StationKept(Run(Default(), before), before, op);
    }
  }
}
