/** Lexical order without coordinates: a declaration precedes a use when its source event comes first. */
module SourceOrder {
  import opened Common
  import opened ScopeIndex
  import opened LexicalBinding
  import opened BindingPass
  import opened CollectingPass

  function Occurs(events: seq<SourceRange>, range: SourceRange): nat {
    if events == [] then 0
    else Occurs(events[..|events| - 1], range) + (if events[|events| - 1] == range then 1 else 0)
  }

  /** The position of the first event at a range. */
  function Position(events: seq<SourceRange>, range: SourceRange): nat
    requires Occurs(events, range) > 0
  {
    if Occurs(events[..|events| - 1], range) > 0 then Position(events[..|events| - 1], range) else |events| - 1
  }

  lemma {:induction false} PositionIsIndex(events: seq<SourceRange>, range: SourceRange)
    requires Occurs(events, range) > 0
    ensures Position(events, range) < |events| && events[Position(events, range)] == range
  {
    if Occurs(events[..|events| - 1], range) > 0 {
      PositionIsIndex(events[..|events| - 1], range);
    }
  }

  /** How many numbers are given out: one for a range's first event and one for its second. */
  function GivenOut(events: seq<SourceRange>): nat {
    if events == [] then 0
    else
      var init := events[..|events| - 1];
      GivenOut(init) + (if Occurs(init, events[|events| - 1]) < 2 then 1 else 0)
  }

  /** The numbering is that of the events: ranges seen once are ordered as they occur, repeated ones are not. */
  ghost predicate NumbersEvents(b: Binding, events: seq<SourceRange>) {
    && (forall r :: r in b.ambiguous <==> Occurs(events, r) > 1)
    && (forall r :: r in b.sourceOrders <==> Occurs(events, r) == 1)
    && (forall r :: r in b.sourceOrders ==> b.sourceOrders[r] < b.nextSourceOrder)
    && (forall r, q :: r in b.sourceOrders && q in b.sourceOrders ==>
          (b.sourceOrders[r] < b.sourceOrders[q] <==> Position(events, r) < Position(events, q)))
  }

  /** An ordered range has the number that was next at its event. */
  ghost predicate NumberedInTurn(b: Binding, events: seq<SourceRange>) {
    && b.nextSourceOrder == GivenOut(events)
    && forall r :: r in b.sourceOrders ==>
         Occurs(events, r) == 1 && Position(events, r) < |events| && b.sourceOrders[r] == GivenOut(events[..Position(events, r)])
  }

  lemma {:induction false} EventsNumbered(events: seq<SourceRange>)
    ensures NumbersEvents(IndexEvents(InitialBinding(), events), events)
  {
    if events != [] {
      var init, last := events[..|events| - 1], events[|events| - 1];
      EventsNumbered(init);
      PositionsExtend(events);
      hide Position;
    }
  }

  /** The numbers themselves, not only their order. */
  lemma {:induction false} EventsNumberedInTurn(events: seq<SourceRange>)
    ensures NumberedInTurn(IndexEvents(InitialBinding(), events), events)
  {
    EventsNumbered(events);
    if events != [] {
      var init, last := events[..|events| - 1], events[|events| - 1];
      var before, after := IndexEvents(InitialBinding(), init), IndexEvents(InitialBinding(), events);
      EventsNumberedInTurn(init);
      EventsNumbered(init);
      PositionsExtend(events);
      hide Position, GivenOut;
      assert GivenOut(events) == GivenOut(init) + (if Occurs(init, last) < 2 then 1 else 0) by { GivenOutMore(events); }
      forall r | r in after.sourceOrders
        ensures Position(events, r) < |events| && after.sourceOrders[r] == GivenOut(events[..Position(events, r)])
      {
        if r in before.sourceOrders {
          assert events[..Position(init, r)] == init[..Position(init, r)];
        }
      }
    }
  }

  lemma GivenOutMore(events: seq<SourceRange>)
    requires events != []
    ensures var init := events[..|events| - 1];
      GivenOut(events) == GivenOut(init) + (if Occurs(init, events[|events| - 1]) < 2 then 1 else 0)
  {
  }

  /** A further event leaves earlier positions alone and comes after all of them. */
  lemma PositionsExtend(events: seq<SourceRange>)
    requires events != []
    ensures forall r :: Occurs(events[..|events| - 1], r) > 0 ==>
      Position(events, r) == Position(events[..|events| - 1], r) < |events| - 1
    ensures var last := events[|events| - 1];
      Occurs(events[..|events| - 1], last) == 0 ==> Position(events, last) == |events| - 1
  {
    var init := events[..|events| - 1];
    forall r | Occurs(init, r) > 0 ensures Position(events, r) == Position(init, r) < |init| {
      PositionIsIndex(init, r);
    }
  }

  /** What the table answers about a symbol's earlier declarations; no value when the order of events leaves it open. */
  ghost function HasPriorDeclaration(orders: map<SourceRange, nat>, occurrences: seq<seq<Occurrence>>, symbol: nat,
                                     use: SourceRange): Option<bool>
  {
    if use !in orders || symbol >= |occurrences| then None
    else if exists i :: 0 <= i < |occurrences[symbol]| && IsEarlier(occurrences[symbol][i], orders[use]) then Some(true)
    else if exists i :: 0 <= i < |occurrences[symbol]| && occurrences[symbol][i].lexicalOrder.None? then None
    else Some(false)
  }

  /** Whether a declarator of this whole range declares the symbol. */
  ghost predicate HasVariableDeclaration(occurrences: seq<seq<Occurrence>>, symbol: nat, range: SourceRange) {
    symbol < |occurrences| && exists i :: 0 <= i < |occurrences[symbol]| && occurrences[symbol][i].variableRange == Some(range)
  }

  predicate IsEarlier(o: Occurrence, order: nat) {
    o.lexicalOrder.Some? && o.lexicalOrder.value < order
  }

  /** Both ranges have one event each, and the first's comes before the second's. */
  ghost predicate Precedes(events: seq<SourceRange>, r: SourceRange, q: SourceRange) {
    Occurs(events, r) == 1 && Occurs(events, q) == 1 && Position(events, r) < Position(events, q)
  }

  /** The answer in terms of the source events alone. */
  lemma PriorDeclarationMeaning(events: seq<SourceRange>, b: Binding, symbol: nat, use: SourceRange)
    requires b.sourceOrders == IndexEvents(InitialBinding(), events).sourceOrders
    requires OrdersRecorded(b) && symbol < |b.occurrences|
    ensures var answer := HasPriorDeclaration(b.sourceOrders, b.occurrences, symbol, use);
      && (answer == Some(true) <==>
            exists i :: 0 <= i < |b.occurrences[symbol]| && Precedes(events, b.occurrences[symbol][i].range, use))
      && (answer == Some(false) <==>
            && Occurs(events, use) == 1
            && forall i :: 0 <= i < |b.occurrences[symbol]| ==>
                 && Occurs(events, b.occurrences[symbol][i].range) == 1
                 && !Precedes(events, b.occurrences[symbol][i].range, use))
  {
    EventsNumbered(events);
    var orders, mine := b.sourceOrders, b.occurrences[symbol];
    forall i | 0 <= i < |mine|
      ensures mine[i].lexicalOrder.Some? <==> Occurs(events, mine[i].range) == 1
      ensures use in orders ==> (IsEarlier(mine[i], orders[use]) <==> Precedes(events, mine[i].range, use))
    {
      assert mine[i].lexicalOrder == Get(orders, mine[i].range);
    }
  }
}
