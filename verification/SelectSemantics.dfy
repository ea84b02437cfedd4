/** What a built query means: which parameter each placeholder stands for, and
    which rows its conditions accept under those parameters. */
module SelectSemantics {
  import opened Wrappers
  import opened SqlText
  import opened SlotText
  import opened SelectText
  import opened SelectSlots
  import opened SelectQuery

  // ---------------------------------------------------------------------------
  // From placeholders to values
  // ---------------------------------------------------------------------------

  ghost function QuestionsIn(slots: seq<Slot>): nat {
    if slots == [] then 0
    else QuestionsIn(slots[..|slots| - 1]) + if slots[|slots| - 1].Question? then 1 else 0
  }

  /** The value a slot stands for when `asked` question marks stand before it. */
  ghost function ValueOf(slot: Slot, asked: nat, params: seq<Value>): Option<Value> {
    match slot
    case Literal(text) => Some(Text(text))
    case Dollar(n) => if 0 < n <= |params| then Some(params[n - 1]) else None
    case Question => if asked < |params| then Some(params[asked]) else None
  }

  /** In text order, after `asked` earlier question marks, the slots stand for these values. */
  ghost predicate Binds(slots: seq<Slot>, asked: nat, params: seq<Value>, values: seq<Value>) {
    && |slots| == |values|
    && (slots != [] ==>
          var init := slots[..|slots| - 1];
          && Binds(init, asked, params, values[..|values| - 1])
          && ValueOf(slots[|slots| - 1], asked + QuestionsIn(init), params) == Some(values[|values| - 1]))
  }

  lemma {:induction false} BindsOnlyOne(slots: seq<Slot>, asked: nat, params: seq<Value>, u: seq<Value>, v: seq<Value>)
    requires Binds(slots, asked, params, u) && Binds(slots, asked, params, v)
    ensures u == v
  {
    if slots != [] {
      BindsOnlyOne(slots[..|slots| - 1], asked, params, u[..|u| - 1], v[..|v| - 1]);
      assert u == u[..|u| - 1] + [u[|u| - 1]] && v == v[..|v| - 1] + [v[|v| - 1]];
    }
  }

  lemma {:induction false} QuestionsConcat(a: seq<Slot>, b: seq<Slot>)
    ensures QuestionsIn(a + b) == QuestionsIn(a) + QuestionsIn(b)
  {
    if b == [] {
      assert a + b == a;
    } else {
      QuestionsConcat(a, b[..|b| - 1]);
      assert (a + b)[..|a + b| - 1] == a + b[..|b| - 1];
    }
  }

  lemma {:induction false} BindsConcat(a: seq<Slot>, b: seq<Slot>, asked: nat, params: seq<Value>, u: seq<Value>, v: seq<Value>)
    requires |a| == |u| && |b| == |v|
    ensures Binds(a + b, asked, params, u + v)
       <==> Binds(a, asked, params, u) && Binds(b, asked + QuestionsIn(a), params, v)
  {
    if b == [] {
      assert a + b == a && u + v == u;
    } else {
      var init, vs := b[..|b| - 1], v[..|v| - 1];
      BindsConcat(a, init, asked, params, u, vs);
      QuestionsConcat(a, init);
      assert (a + b)[..|a + b| - 1] == a + init && (u + v)[..|u + v| - 1] == u + vs;
      assert (a + b)[|a + b| - 1] == b[|b| - 1] && (u + v)[|u + v| - 1] == v[|v| - 1];
    }
  }

  /** Parameters pushed later do not disturb slots that already have a value. */
  lemma {:induction false} BindsStable(slots: seq<Slot>, asked: nat, params: seq<Value>, more: seq<Value>, values: seq<Value>)
    requires Binds(slots, asked, params, values)
    ensures Binds(slots, asked, params + more, values)
  {
    if slots != [] {
      BindsStable(slots[..|slots| - 1], asked, params, more, values[..|values| - 1]);
    }
  }

  lemma {:induction false} PlaceholdersAsk(driver: Driver, start: nat, n: nat)
    ensures QuestionsIn(Placeholders(driver, start, n)) == if driver == Postgres then 0 else n
  {
    if n > 0 {
      PlaceholdersAsk(driver, start, n - 1);
      assert Placeholders(driver, start, n)[..n - 1] == Placeholders(driver, start, n - 1);
    }
  }

  lemma BindsSnoc(slots: seq<Slot>, last: Slot, asked: nat, params: seq<Value>, values: seq<Value>)
    requires values != [] && |slots| == |values| - 1
    requires Binds(slots, asked, params, values[..|values| - 1])
    requires ValueOf(last, asked + QuestionsIn(slots), params) == Some(values[|values| - 1])
    ensures Binds(slots + [last], asked, params, values)
  {
    assert (slots + [last])[..|slots|] == slots;
  }

  /** The number of parameters before the one that the first of these placeholders stands for. */
  function FirstAt(driver: Driver, start: nat, asked: nat): nat
    requires start > 0
  {
    if driver == Postgres then start - 1 else asked
  }

  lemma OnePlaceholder(driver: Driver, start: nat, asked: nat, k: nat, params: seq<Value>)
    requires start > 0 && FirstAt(driver, start, asked) + k < |params|
    ensures ValueOf(Placeholder(driver, start + k), asked + if driver == Postgres then 0 else k, params)
         == Some(params[FirstAt(driver, start, asked) + k])
  {
  }

  /** Placeholders stand for consecutive parameters: from their number, or from the question marks before them. */
  lemma {:induction false} PlaceholdersBind(driver: Driver, start: nat, n: nat, asked: nat, params: seq<Value>, values: seq<Value>)
    requires start > 0 && FirstAt(driver, start, asked) + n <= |params|
    requires values == params[FirstAt(driver, start, asked)..FirstAt(driver, start, asked) + n]
    ensures Binds(Placeholders(driver, start, n), asked, params, values)
  {
    if n > 0 {
      var init := values[..n - 1];
      SliceInit(params, FirstAt(driver, start, asked), n);
      PlaceholdersBind(driver, start, n - 1, asked, params, init);
      PlaceholdersAsk(driver, start, n - 1);
      OnePlaceholder(driver, start, asked, n - 1, params);
      BindsSnoc(Placeholders(driver, start, n - 1), Placeholder(driver, start + n - 1), asked, params, values);
    }
  }

  lemma SliceInit<T>(s: seq<T>, at: nat, n: nat)
    requires 0 < n && at + n <= |s|
    ensures s[at..at + n][..n - 1] == s[at..at + (n - 1)]
    ensures s[at..at + n][n - 1] == s[at + (n - 1)]
  {
  }

  // ---------------------------------------------------------------------------
  // The slots of a query
  // ---------------------------------------------------------------------------

  ghost function LimitSlots(limit: Option<Limit>): seq<Slot> {
    if limit.Some? && limit.value.Slots? then [limit.value.limit, limit.value.offset] else []
  }

  /** Every slot of the query in text order: WHERE comes before LIMIT and OFFSET. */
  ghost function QuerySlots(c: Clauses): seq<Slot> {
    CondSlots(c.conditions) + LimitSlots(c.limit)
  }

  predicate Inlines(env: Env, t: Term) {
    t.FilterTerm? && InlinesOperand(env, t.expr, t.columnType)
  }

  /** The slots of a term that `base` parameters went before: an inlined literal, or
      consecutive placeholders for what it pushes; a clause numbers them from 1 anyway. */
  ghost function TermSlots(env: Env, t: Term, base: nat): seq<Slot> {
    if Inlines(env, t) then [Literal(t.value)]
    else Placeholders(env.driver, if t.WhereTerm? then 1 else base + 1, |ValuesOf(env, t)|)
  }

  ghost function Pushed(env: Env, terms: seq<Term>): seq<Value> {
    if terms == [] then []
    else Pushed(env, terms[..|terms| - 1]) + ValuesOf(env, terms[|terms| - 1])
  }

  /** The number of parameters pushed before the `i`-th term. */
  ghost function Base(env: Env, terms: seq<Term>, i: nat): nat
    requires i <= |terms|
  {
    |Pushed(env, terms[..i])|
  }

  ghost function AllSlots(env: Env, terms: seq<Term>): seq<Slot> {
    if terms == [] then []
    else
      var init := terms[..|terms| - 1];
      AllSlots(env, init) + TermSlots(env, terms[|terms| - 1], |Pushed(env, init)|)
  }

  /** A page or single-row request comes last, if at all. */
  ghost predicate LimitLast(terms: seq<Term>) {
    forall i :: 0 <= i < |terms| - 1 ==> !terms[i].PageTerm? && !terms[i].OneTerm?
  }

  lemma {:induction false} ParamsArePushed(env: Env, terms: seq<Term>)
    ensures Compiled(env, terms).params == Pushed(env, terms)
  {
    if terms != [] {
      ParamsArePushed(env, terms[..|terms| - 1]);
    }
  }

  lemma {:induction false} NoLimitYet(env: Env, terms: seq<Term>)
    requires forall i :: 0 <= i < |terms| ==> !terms[i].PageTerm? && !terms[i].OneTerm?
    ensures Compiled(env, terms).limit == None
  {
    if terms != [] {
      NoLimitYet(env, terms[..|terms| - 1]);
    }
  }

  lemma PlaceholdersUpToTwo(driver: Driver, index: nat)
    ensures Placeholders(driver, index, 0) == []
    ensures Placeholders(driver, index, 1) == [Placeholder(driver, index)]
    ensures Placeholders(driver, index, 2) == [Placeholder(driver, index), Placeholder(driver, index + 1)]
  {
    assert Placeholders(driver, index, 0) == [];
    assert Placeholders(driver, index, 1) == [] + [Placeholder(driver, index)];
  }

  lemma SlotsOfFilter(env: Env, t: Term, base: nat)
    requires t.FilterTerm?
    ensures SlotsOf(FilterCondition(env, t.expr, t.value, t.columnType, base + 1)) == TermSlots(env, t, base)
  {
    PlaceholdersUpToTwo(env.driver, base + 1);
  }

  /** The one condition a term adds, if any, holds exactly its slots. */
  lemma SlotsOfTerm(env: Env, t: Term, base: nat)
    requires !t.PageTerm?
    ensures CondsOf(env, t, base + 1) == [] ==> TermSlots(env, t, base) == []
    ensures CondsOf(env, t, base + 1) != [] ==>
              |CondsOf(env, t, base + 1)| == 1 && SlotsOf(CondsOf(env, t, base + 1)[0]) == TermSlots(env, t, base)
  {
    PlaceholdersUpToTwo(env.driver, base + 1);
    if t.FilterTerm? {
      SlotsOfFilter(env, t, base);
    }
  }

  lemma CondSlotsAppend(conditions: seq<Cond>, c: Cond)
    ensures CondSlots(conditions + [c]) == CondSlots(conditions) + SlotsOf(c)
  {
    assert (conditions + [c])[..|conditions|] == conditions;
  }

  lemma {:induction false} CondSlotsOfCompiled(env: Env, terms: seq<Term>)
    requires forall i :: 0 <= i < |terms| ==> !terms[i].PageTerm?
    ensures CondSlots(Compiled(env, terms).conditions) == AllSlots(env, terms)
  {
    if terms != [] {
      var init, t := terms[..|terms| - 1], terms[|terms| - 1];
      CondSlotsOfCompiled(env, init);
      ParamsArePushed(env, init);
      var before, added := Compiled(env, init).conditions, CondsOf(env, t, |Pushed(env, init)| + 1);
      assert Compiled(env, terms).conditions == before + added;
      SlotsOfTerm(env, t, |Pushed(env, init)|);
      if added == [] {
        assert before + added == before;
      } else {
        CondSlotsAppend(before, added[0]);
        assert added == [added[0]];
      }
    }
  }

  lemma SlotsOfPage(env: Env, terms: seq<Term>)
    requires terms != [] && terms[|terms| - 1].PageTerm?
    ensures LimitSlots(Compiled(env, terms).limit) == TermSlots(env, terms[|terms| - 1], |Pushed(env, terms[..|terms| - 1])|)
    ensures Compiled(env, terms).conditions == Compiled(env, terms[..|terms| - 1]).conditions
  {
    var init, page := terms[..|terms| - 1], terms[|terms| - 1];
    ParamsArePushed(env, init);
    LimitOfPage(env, Compiled(env, init), page);
  }

  lemma LimitOfPage(env: Env, c: Clauses, t: Term)
    requires t.PageTerm?
    ensures LimitSlots(After(env, c, t).limit) == TermSlots(env, t, |c.params|)
    ensures After(env, c, t).conditions == c.conditions
  {
    PlaceholdersUpToTwo(env.driver, |c.params| + 1);
    assert c.conditions + [] == c.conditions;
  }

  /** The slots of a built query are those of its terms, in the same order. */
  lemma SlotsOfCompiled(env: Env, terms: seq<Term>)
    requires LimitLast(terms)
    ensures QuerySlots(Compiled(env, terms)) == AllSlots(env, terms)
  {
    if terms == [] {
    } else if terms[|terms| - 1].PageTerm? {
      SlotsOfPage(env, terms);
      CondSlotsOfCompiled(env, terms[..|terms| - 1]);
    } else {
      CondSlotsOfCompiled(env, terms);
      NoLimitYet(env, terms[..|terms| - 1]);
      assert LimitSlots(Compiled(env, terms).limit) == [];
    }
  }

  // ---------------------------------------------------------------------------
  // The binding discipline
  // ---------------------------------------------------------------------------

  /** The values the slots of a term are meant to stand for, in text order. */
  ghost function Intended(env: Env, t: Term): seq<Value> {
    if Inlines(env, t) then [Text(t.value)] else ValuesOf(env, t)
  }

  ghost function IntendedAll(env: Env, terms: seq<Term>): seq<Value> {
    if terms == [] then []
    else IntendedAll(env, terms[..|terms| - 1]) + Intended(env, terms[|terms| - 1])
  }

  /** A clause with keys that would be numbered as if nothing had been pushed before it. */
  predicate Misnumbered(env: Env, t: Term, base: nat) {
    env.driver == Postgres && t.WhereTerm? && t.values != [] && base != 0
  }

  /** On PostgreSQL a clause with keys comes before anything that pushes a parameter. */
  ghost predicate ClauseFirst(env: Env, terms: seq<Term>) {
    forall i :: 0 <= i < |terms| ==> !Misnumbered(env, terms[i], Base(env, terms, i))
  }

  /** The `j`-th slot of a term that had `base` parameters before it stands for the `j`-th value it pushes. */
  ghost predicate OwnSlot(env: Env, slot: Slot, base: nat, j: nat) {
    slot.Literal? || slot == Placeholder(env.driver, base + 1 + j)
  }

  ghost predicate OwnSlots(env: Env, t: Term, base: nat) {
    forall j :: 0 <= j < |TermSlots(env, t, base)| ==> OwnSlot(env, TermSlots(env, t, base)[j], base, j)
  }

  lemma {:induction false} PlaceholdersAt(driver: Driver, start: nat, n: nat, j: nat)
    requires j < n
    ensures Placeholders(driver, start, n)[j] == Placeholder(driver, start + j)
  {
    if j < n - 1 {
      PlaceholdersAt(driver, start, n - 1, j);
    }
  }

  /** Exactly when each slot stands for a value that its own term pushed. */
  lemma OwnSlotsExactly(env: Env, terms: seq<Term>)
    ensures (forall i :: 0 <= i < |terms| ==> OwnSlots(env, terms[i], Base(env, terms, i))) <==> ClauseFirst(env, terms)
  {
    forall i | 0 <= i < |terms|
      ensures OwnSlots(env, terms[i], Base(env, terms, i)) <==> !Misnumbered(env, terms[i], Base(env, terms, i))
    {
      OwnSlotsOfTerm(env, terms[i], Base(env, terms, i));
    }
  }

  lemma OwnSlotsOfTerm(env: Env, t: Term, base: nat)
    ensures OwnSlots(env, t, base) <==> !Misnumbered(env, t, base)
  {
    var slots := TermSlots(env, t, base);
    if !Inlines(env, t) {
      var start, n := if t.WhereTerm? then 1 else base + 1, |ValuesOf(env, t)|;
      forall j | 0 <= j < n
        ensures slots[j] == Placeholder(env.driver, start + j)
      {
        PlaceholdersAt(env.driver, start, n, j);
      }
      if Misnumbered(env, t, base) {
        assert !OwnSlot(env, slots[0], base, 0);
      }
    }
  }

  /** Placeholders for what was just pushed stand for it. */
  lemma PushedBind(driver: Driver, start: nat, before: seq<Value>, pushed: seq<Value>, asked: nat)
    requires start > 0 && FirstAt(driver, start, asked) == |before|
    ensures Binds(Placeholders(driver, start, |pushed|), asked, before + pushed, pushed)
    ensures QuestionsIn(Placeholders(driver, start, |pushed|)) == if driver == Postgres then 0 else |pushed|
  {
    assert (before + pushed)[|before|..|before| + |pushed|] == pushed;
    PlaceholdersBind(driver, start, |pushed|, asked, before + pushed, pushed);
    PlaceholdersAsk(driver, start, |pushed|);
  }

  lemma NothingBinds(driver: Driver, start: nat, asked: nat, params: seq<Value>)
    ensures Placeholders(driver, start, 0) == [] && QuestionsIn(Placeholders(driver, start, 0)) == 0
    ensures Binds(Placeholders(driver, start, 0), asked, params, [])
  {
  }

  lemma TermBinds(env: Env, t: Term, before: seq<Value>, asked: nat)
    requires !Misnumbered(env, t, |before|)
    requires env.driver != Postgres ==> asked == |before|
    ensures Binds(TermSlots(env, t, |before|), asked, before + ValuesOf(env, t), Intended(env, t))
    ensures QuestionsIn(TermSlots(env, t, |before|)) == if env.driver == Postgres then 0 else |ValuesOf(env, t)|
  {
    var pushed, start := ValuesOf(env, t), if t.WhereTerm? then 1 else |before| + 1;
    if Inlines(env, t) {
      LiteralBinds(t.value, asked, before + pushed);
    } else if pushed == [] {
      NothingBinds(env.driver, start, asked, before + pushed);
    } else {
      PushedBind(env.driver, start, before, pushed, asked);
    }
  }

  lemma LiteralBinds(text: string, asked: nat, params: seq<Value>)
    ensures Binds([Literal(text)], asked, params, [Text(text)])
    ensures QuestionsIn([Literal(text)]) == 0 && Dollars([Literal(text)]) == []
  {
    assert [Literal(text)][..0] == [] && [Text(text)][..0] == [];
  }

  lemma ClauseFirstInit(env: Env, terms: seq<Term>)
    requires terms != [] && ClauseFirst(env, terms)
    ensures ClauseFirst(env, terms[..|terms| - 1])
    ensures !Misnumbered(env, terms[|terms| - 1], |Pushed(env, terms[..|terms| - 1])|)
  {
    var init := terms[..|terms| - 1];
    forall i | 0 <= i < |init|
      ensures !Misnumbered(env, init[i], Base(env, init, i))
    {
      assert init[..i] == terms[..i];
      assert !Misnumbered(env, terms[i], Base(env, terms, i));
    }
    assert Base(env, terms, |terms| - 1) == |Pushed(env, init)|;
  }

  /** Every slot of the query stands for the value its own term means it to. */
  lemma {:induction false} EverySlotGetsItsValue(env: Env, terms: seq<Term>)
    requires ClauseFirst(env, terms)
    ensures Binds(AllSlots(env, terms), 0, Pushed(env, terms), IntendedAll(env, terms))
    ensures QuestionsIn(AllSlots(env, terms)) == if env.driver == Postgres then 0 else |Pushed(env, terms)|
  {
    if terms != [] {
      var init, t := terms[..|terms| - 1], terms[|terms| - 1];
      var before, slots, added := Pushed(env, init), AllSlots(env, init), TermSlots(env, t, |Pushed(env, init)|);
      ClauseFirstInit(env, terms);
      EverySlotGetsItsValue(env, init);
      TermBinds(env, t, before, QuestionsIn(slots));
      JoinBindings(slots, added, before, ValuesOf(env, t), IntendedAll(env, init), Intended(env, t));
    }
  }

  lemma JoinBindings(slots: seq<Slot>, added: seq<Slot>, before: seq<Value>, pushed: seq<Value>, u: seq<Value>, v: seq<Value>)
    requires Binds(slots, 0, before, u) && Binds(added, QuestionsIn(slots), before + pushed, v)
    ensures Binds(slots + added, 0, before + pushed, u + v)
    ensures QuestionsIn(slots + added) == QuestionsIn(slots) + QuestionsIn(added)
  {
    BindsStable(slots, 0, before, pushed, u);
    BindsConcat(slots, added, 0, before + pushed, u, v);
    QuestionsConcat(slots, added);
  }

  /** On MySQL and SQLite the k-th question mark binds the k-th parameter, and there are as many of each. */
  lemma {:induction false} QuestionMarksBindInOrder(env: Env, terms: seq<Term>)
    requires env.driver != Postgres && LimitLast(terms)
    ensures var c := Compiled(env, terms);
            && |QuerySlots(c)| == |c.params|
            && (forall k :: 0 <= k < |QuerySlots(c)| ==> QuerySlots(c)[k] == Question)
            && Binds(QuerySlots(c), 0, c.params, c.params)
  {
    SlotsOfCompiled(env, terms);
    ParamsArePushed(env, terms);
    EverySlotGetsItsValue(env, terms);
    IntendedIsPushed(env, terms);
    AllQuestions(AllSlots(env, terms));
  }

  lemma {:induction false} IntendedIsPushed(env: Env, terms: seq<Term>)
    requires env.driver != Postgres
    ensures IntendedAll(env, terms) == Pushed(env, terms)
  {
    if terms != [] {
      IntendedIsPushed(env, terms[..|terms| - 1]);
    }
  }

  lemma {:induction false} AllQuestions(slots: seq<Slot>)
    ensures QuestionsIn(slots) <= |slots|
    ensures QuestionsIn(slots) == |slots| ==> forall k :: 0 <= k < |slots| ==> slots[k] == Question
  {
    if slots != [] {
      AllQuestions(slots[..|slots| - 1]);
    }
  }

  // ---------------------------------------------------------------------------
  // Numbers on PostgreSQL
  // ---------------------------------------------------------------------------

  /** The numbers of the `$n` in text order. */
  ghost function Dollars(slots: seq<Slot>): seq<nat> {
    if slots == [] then []
    else
      var last := slots[|slots| - 1];
      Dollars(slots[..|slots| - 1]) + if last.Dollar? then [last.index] else []
  }

  lemma {:induction false} DollarsConcat(a: seq<Slot>, b: seq<Slot>)
    ensures Dollars(a + b) == Dollars(a) + Dollars(b)
  {
    if b == [] {
      assert a + b == a;
    } else {
      DollarsConcat(a, b[..|b| - 1]);
      assert (a + b)[..|a + b| - 1] == a + b[..|b| - 1];
    }
  }

  /** The numbers from `start`, `n` of them. */
  ghost function Numbers(start: nat, n: nat): (r: seq<nat>)
    ensures |r| == n
  {
    if n == 0 then [] else Numbers(start, n - 1) + [start + n - 1]
  }

  lemma {:induction false} NumbersAt(start: nat, n: nat)
    ensures forall j :: 0 <= j < n ==> Numbers(start, n)[j] == start + j
  {
    if n > 0 {
      NumbersAt(start, n - 1);
    }
  }

  lemma {:induction false} DollarsOfPlaceholders(start: nat, n: nat)
    ensures Dollars(Placeholders(Postgres, start, n)) == Numbers(start, n)
  {
    if n > 0 {
      DollarsOfPlaceholders(start, n - 1);
      assert Placeholders(Postgres, start, n)[..n - 1] == Placeholders(Postgres, start, n - 1);
    }
  }

  ghost predicate Increasing(ns: seq<nat>) {
    forall i, j :: 0 <= i < j < |ns| ==> ns[i] < ns[j]
  }

  /** The numbers of the parameters that containment filters push although their operand is inlined. */
  ghost function Unused(env: Env, terms: seq<Term>): set<nat> {
    if terms == [] then {}
    else
      var init := terms[..|terms| - 1];
      Unused(env, init) + if Inlines(env, terms[|terms| - 1]) then {|Pushed(env, init)| + 1} else {}
  }

  lemma TermDollars(env: Env, t: Term, base: nat)
    requires env.driver == Postgres && !Misnumbered(env, t, base)
    ensures Inlines(env, t) ==> Dollars(TermSlots(env, t, base)) == [] && |ValuesOf(env, t)| == 1
    ensures !Inlines(env, t) ==> Dollars(TermSlots(env, t, base)) == Numbers(base + 1, |ValuesOf(env, t)|)
  {
    if Inlines(env, t) {
      LiteralBinds(t.value, 0, []);
    } else {
      DollarsOfPlaceholders(if t.WhereTerm? then 1 else base + 1, |ValuesOf(env, t)|);
    }
  }

  /** The numbers strictly increase, and are those up to `count` but for the unused ones. */
  ghost predicate Covers(ns: seq<nat>, count: nat, unused: set<nat>) {
    && Increasing(ns)
    && (forall n :: n in ns ==> 0 < n <= count)
    && (forall n :: n in unused ==> 0 < n <= count)
    && (forall n :: 0 < n <= count ==> (n in ns <==> n !in unused))
  }

  lemma CoversMore(ns: seq<nat>, count: nat, unused: set<nat>, more: nat)
    requires Covers(ns, count, unused)
    ensures Covers(ns + Numbers(count + 1, more), count + more, unused)
    ensures Covers(ns, count + 1, unused + {count + 1})
  {
    var added := Numbers(count + 1, more);
    NumbersAt(count + 1, more);
    forall n: nat
      ensures n in added <==> count < n <= count + more
    {
      if count < n <= count + more {
        assert added[n - count - 1] == n;
      }
    }
    forall j | 0 <= j < |ns|
      ensures ns[j] <= count
    {
      assert ns[j] in ns;
    }
  }

  lemma CoversStep(env: Env, t: Term, ns: seq<nat>, base: nat, unused: set<nat>)
    requires env.driver == Postgres && !Misnumbered(env, t, base) && Covers(ns, base, unused)
    ensures Covers(ns + Dollars(TermSlots(env, t, base)), base + |ValuesOf(env, t)|,
                   unused + if Inlines(env, t) then {base + 1} else {})
  {
    var added := Dollars(TermSlots(env, t, base));
    TermDollars(env, t, base);
    CoversMore(ns, base, unused, |ValuesOf(env, t)|);
    if Inlines(env, t) {
      assert ns + added == ns;
    } else {
      assert unused + {} == unused;
    }
  }

  lemma {:induction false} NumbersIncreaseInTerms(env: Env, terms: seq<Term>)
    requires env.driver == Postgres && ClauseFirst(env, terms)
    ensures Covers(Dollars(AllSlots(env, terms)), |Pushed(env, terms)|, Unused(env, terms))
  {
    if terms != [] {
      var init, t := terms[..|terms| - 1], terms[|terms| - 1];
      var base, slots := |Pushed(env, init)|, AllSlots(env, init);
      ClauseFirstInit(env, terms);
      NumbersIncreaseInTerms(env, init);
      CoversStep(env, t, Dollars(slots), base, Unused(env, init));
      DollarsConcat(slots, TermSlots(env, t, base));
      assert AllSlots(env, terms) == slots + TermSlots(env, t, base);
      assert |Pushed(env, terms)| == base + |ValuesOf(env, t)|;
    }
  }

  /** On PostgreSQL the numbers strictly increase through the text, stay within the
      parameters, and leave out exactly those that containment filters pushed. */
  lemma NumbersIncrease(env: Env, terms: seq<Term>)
    requires env.driver == Postgres && ClauseFirst(env, terms) && LimitLast(terms)
    ensures var c := Compiled(env, terms);
            Covers(Dollars(QuerySlots(c)), |c.params|, Unused(env, terms))
  {
    SlotsOfCompiled(env, terms);
    ParamsArePushed(env, terms);
    NumbersIncreaseInTerms(env, terms);
  }
}
