/** The events of a module by their places in its tree, and lexical order as the order of places. */
module EventOrder {
  import opened Common
  import opened BindingPass
  import opened CollectingPass
  import opened SourceOrder
  import opened BoundModule
  import opened DeclarationLog
  import opened MentionedNames

  /** The way from the module down to an event: the positions to take, one after the other. */
  type Place = seq<nat>

  /** Places are compared at the first position where they part. */
  predicate Before(p: Place, q: Place) {
    p != [] && q != [] && (p[0] < q[0] || (p[0] == q[0] && Before(p[1..], q[1..])))
  }

  // ---- the event at a place ---------------------------------------------------------------------

  /** Of a declarator, its name comes first and then the names its initializer mentions. */
  function DeclaratorEventAt(d: Declarator, p: Place): Option<SourceRange> {
    if |p| != 1 then None
    else if p[0] == 0 then Some(d.name.range)
    else if d.initializer.None? then None
    else
      var names := NamesAmong(InitializerLeavesInRole(d.initializer.value), false);
      if p[0] <= |names| then Some(names[p[0] - 1].range) else None
  }

  function VariablesEventAt(ds: seq<Declarator>, p: Place): Option<SourceRange> {
    if p == [] || p[0] >= |ds| then None else DeclaratorEventAt(ds[p[0]], p[1..])
  }

  /** Only operands that are ordered against declarations are events. */
  function OperandEventAt(operands: seq<Operand>, p: Place): Option<SourceRange> {
    if |p| != 1 || p[0] >= |operands| then None
    else match operands[p[0]]
         case OrderedUse(_, range) => Some(range)
         case _ => None
  }

  function BodyEventAt(body: seq<BodyItem>, p: Place): Option<SourceRange>
    decreases body
  {
    if p == [] || p[0] >= |body| then None else ItemEventAt(body[p[0]], p[1..])
  }

  function ItemEventAt(item: BodyItem, p: Place): Option<SourceRange>
    decreases item
  {
    match item
    case VariablesItem(declaration) => VariablesEventAt(declaration.declarators, p)
    case LabelItem(_) => None
    case CallPrototypeItem(_) => None
    case CallTargetsItem(_) => None
    case BranchTargetsItem(name) => if p == [] then Some(name.range) else None
    case InstructionItem(_, operands) => OperandEventAt(operands, p)
    case BlockItem(_, body) => BodyEventAt(body, p)
  }

  /** Of a function, its name comes first and then its body. */
  function ModuleEventAt(items: seq<ModuleItem>, p: Place): Option<SourceRange> {
    if p == [] || p[0] >= |items| then None
    else
      var rest := p[1..];
      match items[p[0]]
      case ModuleVariables(declaration) => VariablesEventAt(declaration.declarators, rest)
      case FileItem(_) => None
      case DebugStringItem(_, _) => None
      case FunctionItem(f) =>
        if rest == [0] then Some(f.name.range)
        else if rest != [] && rest[0] == 1 then BodyEventAt(f.body, rest[1..])
        else None
  }

  // ---- events listed by places ------------------------------------------------------------------

  /** The places are all those with an event, in order, and the events stand there. */
  ghost predicate Lists(places: seq<Place>, events: seq<SourceRange>, at: Place -> Option<SourceRange>) {
    && |places| == |events|
    && (forall k :: 0 <= k < |places| ==> at(places[k]) == Some(events[k]))
    && (forall j, k :: 0 <= j < k < |places| ==> Before(places[j], places[k]))
    && (forall p: Place :: at(p).Some? ==> p in places)
  }

  function Below(n: nat, places: seq<Place>): (r: seq<Place>)
    ensures |r| == |places|
  {
    seq(|places|, k requires 0 <= k < |places| => [n] + places[k])
  }

  /** What stands below position `n` comes after all that stands below smaller positions. */
  lemma ListsMore(before: seq<Place>, events: seq<SourceRange>, f: Place -> Option<SourceRange>, n: nat,
                  places: seq<Place>, more: seq<SourceRange>, g: Place -> Option<SourceRange>, h: Place -> Option<SourceRange>)
    requires Lists(before, events, f) && Lists(places, more, g)
    requires forall p: Place :: f(p).Some? ==> p != [] && p[0] < n
    requires forall p: Place :: h(p) == if p != [] && p[0] == n then g(p[1..]) else f(p)
    ensures Lists(before + Below(n, places), events + more, h)
  {
    var all, m := before + Below(n, places), |before|;
    forall k | 0 <= k < |all| ensures h(all[k]) == Some((events + more)[k]) {
      if k < m {
        assert f(before[k]).Some?;
      } else {
        assert all[k] == [n] + places[k - m] && all[k][1..] == places[k - m];
      }
    }
    forall j, k | 0 <= j < k < |all| ensures Before(all[j], all[k]) {
      if k < m {
      } else if j < m {
        assert f(before[j]).Some?;
        assert all[k][0] == n;
      } else {
        assert all[j][1..] == places[j - m] && all[k][1..] == places[k - m];
      }
    }
    forall p: Place | h(p).Some? ensures p in all {
      if p != [] && p[0] == n {
        assert g(p[1..]).Some?;
        var k :| 0 <= k < |places| && places[k] == p[1..];
        assert all[m + k] == [n] + places[k] == p;
      } else {
        var k :| 0 <= k < |before| && before[k] == p;
        assert all[k] == p;
      }
    }
  }

  lemma ListsNothing(at: Place -> Option<SourceRange>)
    requires forall p: Place :: at(p).None?
    ensures Lists([], [], at)
  {
  }

  lemma ListsSame(places: seq<Place>, events: seq<SourceRange>, f: Place -> Option<SourceRange>, g: Place -> Option<SourceRange>)
    requires Lists(places, events, f) && forall p: Place :: f(p) == g(p)
    ensures Lists(places, events, g)
  {
  }

  /** An event that stands alone. */
  lemma ListsOne(at: Place -> Option<SourceRange>, p: Place, event: SourceRange)
    requires forall q: Place :: at(q) == if q == p then Some(event) else None
    ensures Lists([p], [event], at)
  {
  }

  // ---- what is numbered, by places --------------------------------------------------------------

  /** Names in order, below a first place. */
  lemma {:induction false} NamesListed(first: SourceRange, names: seq<Identifier>) returns (places: seq<Place>)
    ensures Lists(places, [first] + Ranges(names),
                  (p: Place) => if |p| != 1 then None else if p[0] == 0 then Some(first)
                                else if p[0] <= |names| then Some(names[p[0] - 1].range) else None)
  {
    var at := (p: Place) => if |p| != 1 then None else if p[0] == 0 then Some(first)
                            else if p[0] <= |names| then Some(names[p[0] - 1].range) else None;
    places := seq(|names| + 1, k requires 0 <= k < |names| + 1 => [k]);
    forall p: Place | at(p).Some? ensures p in places {
      assert p == [p[0]] && places[p[0]] == p;
    }
  }

  lemma DeclaratorListed(d: Declarator) returns (places: seq<Place>)
    ensures Lists(places, [d.name.range] + Ranges(OptionalMentions(d.initializer, false)), p => DeclaratorEventAt(d, p))
  {
    hide NamesAmong, InitializerMentions, Lists;
    var names := OptionalMentions(d.initializer, false);
    places := NamesListed(d.name.range, names);
    if d.initializer.Some? {
      InitializerMentionsAreNames(d.initializer.value, false);
    }
    ListsSame(places, [d.name.range] + Ranges(names),
      (p: Place) => if |p| != 1 then None else if p[0] == 0 then Some(d.name.range)
                    else if p[0] <= |names| then Some(names[p[0] - 1].range) else None,
      p => DeclaratorEventAt(d, p));
  }

  lemma {:induction false} VariablesListed(ds: seq<Declarator>) returns (places: seq<Place>)
    ensures Lists(places, DeclaratorEvents(ds), p => VariablesEventAt(ds, p))
  {
    hide Lists, DeclaratorEventAt;
    if ds == [] {
      ListsNothing(p => VariablesEventAt(ds, p));
      places := [];
    } else {
      var init, d := ds[..|ds| - 1], ds[|ds| - 1];
      var before := VariablesListed(init);
      var last := DeclaratorListed(d);
      places := before + Below(|init|, last);
      ListsMore(before, DeclaratorEvents(init), p => VariablesEventAt(init, p), |init|,
        last, [d.name.range] + Ranges(OptionalMentions(d.initializer, false)), p => DeclaratorEventAt(d, p),
        p => VariablesEventAt(ds, p));
    }
  }

  lemma {:induction false} OperandsListed(operands: seq<Operand>) returns (places: seq<Place>)
    ensures Lists(places, OperandEvents(operands), p => OperandEventAt(operands, p))
  {
    hide Lists;
    if operands == [] {
      ListsNothing(p => OperandEventAt(operands, p));
      places := [];
    } else {
      var init, last := operands[..|operands| - 1], operands[|operands| - 1];
      var before := OperandsListed(init);
      var own := (p: Place) => if p == [] && last.OrderedUse? then Some(last.range) else None;
      var more: seq<SourceRange> := if last.OrderedUse? then [last.range] else [];
      var below: seq<Place> := if last.OrderedUse? then [[]] else [];
      if last.OrderedUse? {
        ListsOne(own, [], last.range);
      } else {
        ListsNothing(own);
      }
      places := before + Below(|init|, below);
      forall p: Place ensures OperandEventAt(operands, p)
        == if p != [] && p[0] == |init| then own(p[1..]) else OperandEventAt(init, p)
      {
      }
      ListsMore(before, OperandEvents(init), p => OperandEventAt(init, p), |init|, below, more, own,
        p => OperandEventAt(operands, p));
    }
  }

  lemma {:induction false} BodyListed(body: seq<BodyItem>) returns (places: seq<Place>)
    ensures Lists(places, BodyEvents(body), p => BodyEventAt(body, p))
    decreases body
  {
    hide Lists, ItemEventAt, ItemEvents;
    if body == [] {
      ListsNothing(p => BodyEventAt(body, p));
      places := [];
    } else {
      var init, last := body[..|body| - 1], body[|body| - 1];
      var before := BodyListed(init);
      var own := ItemListed(last);
      places := before + Below(|init|, own);
      ListsMore(before, BodyEvents(init), p => BodyEventAt(init, p), |init|, own, ItemEvents(last), p => ItemEventAt(last, p),
        p => BodyEventAt(body, p));
    }
  }

  lemma {:induction false} ItemListed(item: BodyItem) returns (places: seq<Place>)
    ensures Lists(places, ItemEvents(item), p => ItemEventAt(item, p))
    decreases item
  {
    hide Lists, VariablesEventAt, OperandEventAt, BodyEventAt;
    match item
    case VariablesItem(declaration) =>
      places := VariablesListed(declaration.declarators);
      ListsSame(places, ItemEvents(item), p => VariablesEventAt(declaration.declarators, p), p => ItemEventAt(item, p));
    case BranchTargetsItem(name) =>
      places := [[]];
      ListsOne(p => ItemEventAt(item, p), [], name.range);
    case InstructionItem(_, operands) =>
      places := OperandsListed(operands);
      ListsSame(places, ItemEvents(item), p => OperandEventAt(operands, p), p => ItemEventAt(item, p));
    case BlockItem(_, body) =>
      places := BodyListed(body);
      ListsSame(places, ItemEvents(item), p => BodyEventAt(body, p), p => ItemEventAt(item, p));
    case _ =>
      places := [];
      ListsNothing(p => ItemEventAt(item, p));
  }

  /** A function's name and then its body. */
  function FunctionEventAt(f: FunctionDeclaration, p: Place): Option<SourceRange> {
    if p == [0] then Some(f.name.range) else if p != [] && p[0] == 1 then BodyEventAt(f.body, p[1..]) else None
  }

  lemma FunctionListed(f: FunctionDeclaration) returns (places: seq<Place>)
    ensures Lists(places, [f.name.range] + BodyEvents(f.body), p => FunctionEventAt(f, p))
  {
    hide Lists, BodyEventAt;
    var body := BodyListed(f.body);
    var name := (p: Place) => if p == [0] then Some(f.name.range) else None;
    ListsOne(name, [0], f.name.range);
    places := [[0]] + Below(1, body);
    ListsMore([[0]], [f.name.range], name, 1, body, BodyEvents(f.body), p => BodyEventAt(f.body, p),
      p => FunctionEventAt(f, p));
  }

  function ModuleItemEventAt(item: ModuleItem, p: Place): Option<SourceRange> {
    match item
    case ModuleVariables(declaration) => VariablesEventAt(declaration.declarators, p)
    case FunctionItem(f) => FunctionEventAt(f, p)
    case _ => None
  }

  /** A module's numbered events are exactly those of its tree, in the order of their places. */
  lemma {:induction false} ModuleListed(items: seq<ModuleItem>) returns (places: seq<Place>)
    ensures Lists(places, ModuleEvents(items), p => ModuleEventAt(items, p))
  {
    hide Lists, VariablesEventAt, BodyEventAt, DeclaratorEvents, BodyEvents;
    if items == [] {
      ListsNothing(p => ModuleEventAt(items, p));
      places := [];
    } else {
      var init, last := items[..|items| - 1], items[|items| - 1];
      var before := ModuleListed(init);
      var own, events := ModuleItemListed(last);
      places := before + Below(|init|, own);
      assert ModuleEvents(items) == ModuleEvents(init) + events;
      ListsMore(before, ModuleEvents(init), p => ModuleEventAt(init, p), |init|, own, events,
        p => ModuleItemEventAt(last, p), p => ModuleEventAt(items, p));
    }
  }

  lemma ModuleItemListed(item: ModuleItem) returns (places: seq<Place>, events: seq<SourceRange>)
    ensures Lists(places, events, p => ModuleItemEventAt(item, p))
    ensures events == match item
      case ModuleVariables(declaration) => DeclaratorEvents(declaration.declarators)
      case FunctionItem(f) => [f.name.range] + BodyEvents(f.body)
      case _ => []
  {
    hide Lists, VariablesEventAt, BodyEventAt, DeclaratorEvents, BodyEvents;
    match item
    case ModuleVariables(declaration) =>
      events := DeclaratorEvents(declaration.declarators);
      places := VariablesListed(declaration.declarators);
      ListsSame(places, events, p => VariablesEventAt(declaration.declarators, p), p => ModuleItemEventAt(item, p));
    case FunctionItem(f) =>
      events := [f.name.range] + BodyEvents(f.body);
      places := FunctionListed(f);
      ListsSame(places, events, p => FunctionEventAt(f, p), p => ModuleItemEventAt(item, p));
    case _ =>
      places, events := [], [];
      ListsNothing(p => ModuleItemEventAt(item, p));
  }

  // ---- order in the tree ------------------------------------------------------------------------

  /** The event stands there and nowhere else in the module. */
  ghost predicate OnlyAt(items: seq<ModuleItem>, range: SourceRange, p: Place) {
    ModuleEventAt(items, p) == Some(range) && forall q: Place :: ModuleEventAt(items, q) == Some(range) ==> q == p
  }

  ghost predicate Sole(items: seq<ModuleItem>, range: SourceRange) {
    exists p: Place :: OnlyAt(items, range, p)
  }

  /** Both events stand at one place each, the first one's before the second one's. */
  ghost predicate ComesBefore(items: seq<ModuleItem>, r: SourceRange, q: SourceRange) {
    exists p: Place, s: Place :: OnlyAt(items, r, p) && OnlyAt(items, q, s) && Before(p, s)
  }

  /** A range occurs as often as the list has it. */
  lemma {:induction false} OccursAt(events: seq<SourceRange>, range: SourceRange)
    ensures Occurs(events, range) == 0 <==> range !in events
    ensures Occurs(events, range) == 1 ==>
      && Position(events, range) < |events| && events[Position(events, range)] == range
      && forall j :: 0 <= j < |events| && events[j] == range ==> j == Position(events, range)
    ensures Occurs(events, range) > 1 ==> exists j, k :: 0 <= j < k < |events| && events[j] == range && events[k] == range
  {
    if events != [] {
      var init, n := events[..|events| - 1], |events| - 1;
      OccursAt(init, range);
      assert forall j :: 0 <= j < n ==> init[j] == events[j];
      if Occurs(events, range) > 1 && events[n] == range {
        assert range in init;
        var j :| 0 <= j < |init| && init[j] == range;
        assert events[j] == range;
      } else if Occurs(events, range) > 1 {
        var j, k :| 0 <= j < k < |init| && init[j] == range && init[k] == range;
        assert events[j] == range && events[k] == range;
      }
    }
  }

  lemma {:induction false} BeforeIsStrict(p: Place)
    ensures !Before(p, p)
  {
    if p != [] {
      BeforeIsStrict(p[1..]);
    }
  }

  lemma {:induction false} BeforeIsOneWay(p: Place, q: Place)
    requires Before(p, q)
    ensures !Before(q, p)
  {
    if p[0] == q[0] {
      BeforeIsOneWay(p[1..], q[1..]);
    }
  }

  /** Events numbered once are those that stand at one place, and the numbers are in the order of the places. */
  lemma OrderIsOfPlaces(items: seq<ModuleItem>, r: SourceRange, q: SourceRange)
    ensures Occurs(ModuleEvents(items), r) == 1 <==> Sole(items, r)
    ensures Precedes(ModuleEvents(items), r, q) <==> ComesBefore(items, r, q)
  {
    hide ModuleEvents, ModuleEventAt, Occurs, Position;
    var events, at := ModuleEvents(items), (p: Place) => ModuleEventAt(items, p);
    var places := ModuleListed(items);
    SoleIs(places, events, items, r);
    SoleIs(places, events, items, q);
    if Occurs(events, r) == 1 && Occurs(events, q) == 1 {
      var i, j := Position(events, r), Position(events, q);
      if i < j {
        assert Before(places[i], places[j]);
      } else if j < i {
        BeforeIsOneWay(places[j], places[i]);
      } else {
        BeforeIsStrict(places[i]);
      }
    }
  }

  lemma SoleIs(places: seq<Place>, events: seq<SourceRange>, items: seq<ModuleItem>, r: SourceRange)
    requires Lists(places, events, p => ModuleEventAt(items, p))
    ensures Occurs(events, r) == 1 <==> Sole(items, r)
    ensures Occurs(events, r) == 1 ==>
      && Position(events, r) < |places| && OnlyAt(items, r, places[Position(events, r)])
      && forall p: Place :: OnlyAt(items, r, p) ==> p == places[Position(events, r)]
  {
    hide ModuleEventAt, Occurs, Position;
    OccursAt(events, r);
    var at := (p: Place) => ModuleEventAt(items, p);
    forall p: Place | ModuleEventAt(items, p).Some? ensures p in places {
      assert at(p).Some?;
    }
    forall k | 0 <= k < |places| ensures ModuleEventAt(items, places[k]) == Some(events[k]) {
      assert at(places[k]) == Some(events[k]);
    }
    if Occurs(events, r) == 1 {
      var i := Position(events, r);
      forall p: Place | ModuleEventAt(items, p) == Some(r) ensures p == places[i] {
        var k :| 0 <= k < |places| && places[k] == p;
        assert events[k] == r;
      }
      assert OnlyAt(items, r, places[i]);
    } else if p: Place :| OnlyAt(items, r, p) {
      var i :| 0 <= i < |places| && places[i] == p;
      assert events[i] == r;
      var j, k :| 0 <= j < k < |events| && events[j] == r && events[k] == r;
      assert places[j] == p && places[k] == p;
      BeforeIsStrict(p);
    }
  }

  /**
   * The table's answer about earlier declarations, by places in the module's tree: yes exactly when a declaration of the
   * symbol's scope, name and form stands before the use; no exactly when every such declaration is known not to.
   */
  lemma PriorDeclarationInTree(items: seq<ModuleItem>, specials: set<string>, symbol: nat, use: SourceRange)
    requires NamedModule(items) && BindSymbols(items, specials).Some?
    requires symbol < |BindSymbols(items, specials).value.symbols|
    requires !BindSymbols(items, specials).value.symbols[symbol].IsMetadata()
    ensures var b := BindSymbols(items, specials).value;
      var answer, s := HasPriorDeclaration(b.sourceOrders, b.occurrences, symbol, use), b.symbols[symbol];
      && (answer == Some(true) <==> exists d :: d in DeclaredModule(items) && d.Names(s) && ComesBefore(items, d.range, use))
      && (answer == Some(false) <==>
            && Sole(items, use)
            && forall d :: d in DeclaredModule(items) && d.Names(s) ==>
                 Sole(items, d.range) && !ComesBefore(items, d.range, use))
  {
    hide BindSymbols, DeclaredModule, NamedModule, HasPriorDeclaration, Precedes, Occurs, ModuleEvents, ModuleEventAt,
      ComesBefore, Sole;
    PriorDeclarationInModule(items, specials, symbol, use);
    OrderIsOfPlaces(items, use, use);
    forall d | d in DeclaredModule(items)
      ensures Occurs(ModuleEvents(items), d.range) == 1 <==> Sole(items, d.range)
      ensures Precedes(ModuleEvents(items), d.range, use) <==> ComesBefore(items, d.range, use)
    {
      OrderIsOfPlaces(items, d.range, use);
    }
  }

  // ---- declarations are events ------------------------------------------------------------------

  /** The first list is the second with some left out. */
  ghost predicate Subsequence(a: seq<SourceRange>, b: seq<SourceRange>)
    decreases |b|
  {
    || a == []
    || (b != [] && Subsequence(a, b[..|b| - 1]))
    || (a != [] && b != [] && a[|a| - 1] == b[|b| - 1] && Subsequence(a[..|a| - 1], b[..|b| - 1]))
  }

  lemma {:induction false} SubsequenceBoth(a: seq<SourceRange>, b: seq<SourceRange>, c: seq<SourceRange>, d: seq<SourceRange>)
    requires Subsequence(a, b) && Subsequence(c, d)
    ensures Subsequence(a + c, b + d)
    decreases |d|
  {
    if d == [] {
      assert c == [] && a + c == a && b + d == b;
    } else {
      var e := d[..|d| - 1];
      assert (b + d)[..|b + d| - 1] == b + e;
      if Subsequence(c, e) {
        SubsequenceBoth(a, b, c, e);
      } else if c == [] {
        SubsequenceBoth(a, b, c, e);
      } else {
        assert (a + c)[..|a + c| - 1] == a + c[..|c| - 1];
        SubsequenceBoth(a, b, c[..|c| - 1], e);
      }
    }
  }

  lemma {:induction false} NothingLeft(b: seq<SourceRange>)
    ensures Subsequence([], b) && (b != [] ==> Subsequence([b[0]], b))
  {
    if |b| > 1 {
      NothingLeft(b[..|b| - 1]);
    } else if |b| == 1 {
      assert [b[0]][..0] == [] && b[..0] == [];
    }
  }

  function DeclaredRanges(ds: seq<Declared>): (r: seq<SourceRange>)
    ensures |r| == |ds|
  {
    seq(|ds|, i requires 0 <= i < |ds| => ds[i].range)
  }

  lemma DeclaredRangesBoth(a: seq<Declared>, b: seq<Declared>)
    ensures DeclaredRanges(a + b) == DeclaredRanges(a) + DeclaredRanges(b)
    ensures DeclaredRanges([]) == []
  {
  }

  lemma {:induction false} VariablesAreEvents(ds: seq<Declarator>, scope: nat)
    ensures Subsequence(DeclaredRanges(DeclaredVariables(ds, scope)), DeclaratorEvents(ds))
  {
    hide Subsequence, OptionalMentions, DeclaredRanges;
    DeclaredRangesBoth([], []);
    if ds == [] {
      NothingLeft([]);
    } else {
      var init, d := ds[..|ds| - 1], ds[|ds| - 1];
      var own := [Declared(scope, d.name.text, d.count.Some?, d.name.range, Some(d.range))];
      var events := [d.name.range] + Ranges(OptionalMentions(d.initializer, false));
      VariablesAreEvents(init, scope);
      NothingLeft(events);
      OneDeclared(own[0]);
      DeclaredRangesBoth(DeclaredVariables(init, scope), own);
      SubsequenceBoth(DeclaredRanges(DeclaredVariables(init, scope)), DeclaratorEvents(init), [d.name.range], events);
    }
  }

  lemma OneDeclared(d: Declared)
    ensures DeclaredRanges([d]) == [d.range]
  {
  }

  lemma {:induction false} BodyDeclarationsAreEvents(body: seq<BodyItem>, functionScope: nat, scope: nat, next: nat)
    ensures Subsequence(DeclaredRanges(DeclaredBody(body, functionScope, scope, next)), BodyEvents(body))
    decreases body
  {
    hide Subsequence, DeclaredRanges, BlockScopes.BlockCount;
    DeclaredRangesBoth([], []);
    if body == [] {
      NothingLeft([]);
    } else {
      var init, last := body[..|body| - 1], body[|body| - 1];
      var own := next + BlockScopes.BlockCount(init);
      BodyDeclarationsAreEvents(init, functionScope, scope, next);
      ItemDeclarationsAreEvents(last, functionScope, scope, own);
      DeclaredRangesBoth(DeclaredBody(init, functionScope, scope, next), DeclaredItem(last, functionScope, scope, own));
      SubsequenceBoth(DeclaredRanges(DeclaredBody(init, functionScope, scope, next)), BodyEvents(init),
        DeclaredRanges(DeclaredItem(last, functionScope, scope, own)), ItemEvents(last));
    }
  }

  lemma {:induction false} ItemDeclarationsAreEvents(item: BodyItem, functionScope: nat, scope: nat, next: nat)
    ensures Subsequence(DeclaredRanges(DeclaredItem(item, functionScope, scope, next)), ItemEvents(item))
    decreases item
  {
    hide Subsequence, DeclaredRanges, DeclaratorEvents, DeclaredVariables;
    DeclaredRangesBoth([], []);
    match item
    case VariablesItem(declaration) => VariablesAreEvents(declaration.declarators, scope);
    case BranchTargetsItem(name) =>
      OneDeclared(Declared(functionScope, name.text, false, name.range, None));
      NothingLeft([name.range]);
    case InstructionItem(_, operands) => NothingLeft(OperandEvents(operands));
    case BlockItem(_, body) => BodyDeclarationsAreEvents(body, functionScope, next, next + 1);
    case _ => NothingLeft([]);
  }

  /** Every written variable, function and branch target set is numbered, in the order it is written in. */
  lemma {:induction false} DeclarationsAreEvents(items: seq<ModuleItem>)
    ensures Subsequence(DeclaredRanges(DeclaredModule(items)), ModuleEvents(items))
  {
    hide Subsequence, DeclaredRanges, DeclaredBody, DeclaredVariables, DeclaratorEvents, BodyEvents, ScopeCount;
    DeclaredRangesBoth([], []);
    NothingLeft([]);
    if items != [] {
      var init, last := items[..|items| - 1], items[|items| - 1];
      DeclarationsAreEvents(init);
      match last
      case ModuleVariables(declaration) =>
        VariablesAreEvents(declaration.declarators, 0);
        DeclaredRangesBoth(DeclaredModule(init), DeclaredVariables(declaration.declarators, 0));
        SubsequenceBoth(DeclaredRanges(DeclaredModule(init)), ModuleEvents(init),
          DeclaredRanges(DeclaredVariables(declaration.declarators, 0)), DeclaratorEvents(declaration.declarators));
      case FunctionItem(f) =>
        var scope := ScopeCount(init);
        FunctionDeclarationsAreEvents(f, scope);
        DeclaredRangesBoth(DeclaredModule(init), FunctionDeclared(f, scope));
        SubsequenceBoth(DeclaredRanges(DeclaredModule(init)), ModuleEvents(init), DeclaredRanges(FunctionDeclared(f, scope)),
          [f.name.range] + BodyEvents(f.body));
      case _ =>
        assert DeclaredModule(init) + [] == DeclaredModule(init) && ModuleEvents(init) + [] == ModuleEvents(init);
    }
  }

  lemma FunctionDeclarationsAreEvents(f: FunctionDeclaration, scope: nat)
    ensures Subsequence(DeclaredRanges(FunctionDeclared(f, scope)), [f.name.range] + BodyEvents(f.body))
  {
    hide Subsequence, DeclaredRanges, DeclaredBody, BodyEvents;
    var name := Declared(0, f.name.text, false, f.name.range, None);
    OneDeclared(name);
    NothingLeft([f.name.range]);
    BodyDeclarationsAreEvents(f.body, scope, scope, scope + 1);
    DeclaredRangesBoth([name], DeclaredBody(f.body, scope, scope, scope + 1));
    SubsequenceBoth([f.name.range], [f.name.range], DeclaredRanges(DeclaredBody(f.body, scope, scope, scope + 1)),
      BodyEvents(f.body));
  }
}
