/** The page of a list: which window of the rows its LIMIT and OFFSET stand for. */
module SelectPaging {
  import opened Wrappers
  import opened SqlText
  import opened SlotText
  import opened SelectText
  import opened SelectSlots
  import opened SelectQuery
  import opened SelectSemantics
  import opened SelectReading
  import opened SelectMeaning
  import Pagination

  /** The database takes these numbers from the parameters: a numbered placeholder names its own,
      and a question mark takes the one after those that the marks before it took. */
  ghost predicate ReadsWindow(c: Clauses, limit: nat, offset: nat) {
    && c.limit.Some? && c.limit.value.Slots?
    && var before, slots := QuestionsIn(CondSlots(c.conditions)), c.limit.value;
       && ValueOf(slots.limit, before, c.params) == Some(Number(limit))
       && ValueOf(slots.offset, before + QuestionsIn([slots.limit]), c.params) == Some(Number(offset))
  }

  /** A window that is read is read as only one. */
  lemma OneWindow(c: Clauses, limit: nat, offset: nat, otherLimit: nat, otherOffset: nat)
    requires ReadsWindow(c, limit, offset) && ReadsWindow(c, otherLimit, otherOffset)
    ensures limit == otherLimit && offset == otherOffset
  {
  }

  /** What a page adds to the clauses before it. */
  lemma PageAdds(env: Env, c: Clauses, page: Page)
    ensures var d := Extend(env, c, PageTerms(Some(page)));
            && d.conditions == c.conditions
            && d.params == c.params + [Number(page.limit), Number(page.offset)]
            && d.limit == Some(Slots(Placeholder(env.driver, |c.params| + 1), Placeholder(env.driver, |c.params| + 2)))
  {
    ExtendOne(env, c, PageTerm(page));
    assert c.conditions + [] == c.conditions;
  }

  /** The question marks of the selection, if that is what placeholders are, took every parameter before the page. */
  lemma SelectionTakes(q: Request)
    requires SelectsRows(q)
    ensures var c := Compiled(q.env, SelectionTerms(q));
            QuestionsIn(CondSlots(c.conditions)) == if q.env.driver == Postgres then 0 else |c.params|
  {
    ListIsWellNumbered(q);
    SelectionKinds(q);
    ParamsArePushed(q.env, SelectionTerms(q));
    CondSlotsOfCompiled(q.env, SelectionTerms(q));
    EverySlotGetsItsValue(q.env, SelectionTerms(q));
  }

  lemma PageReadsItsWindow(env: Env, c: Clauses, page: Page)
    requires QuestionsIn(CondSlots(c.conditions)) == if env.driver == Postgres then 0 else |c.params|
    ensures ReadsWindow(Extend(env, c, PageTerms(Some(page))), page.limit, page.offset)
  {
    PageAdds(env, c, page);
    var slot := Placeholder(env.driver, |c.params| + 1);
    assert [slot][..0] == [];
    assert QuestionsIn([slot]) == if env.driver == Postgres then 0 else 1;
  }

  /** In a list with a page, on every database, LIMIT stands for the limit and OFFSET for the offset. */
  lemma ListReadsItsWindow(q: Request)
    requires SelectsRows(q) && q.page.Some?
    ensures ReadsWindow(Compiled(q.env, ListTerms(q)), q.page.value.limit, q.page.value.offset)
  {
    ListIsSelectionAndPage(q);
    SelectionTakes(q);
    PageReadsItsWindow(q.env, Compiled(q.env, SelectionTerms(q)), q.page.value);
  }

  // ---------------------------------------------------------------------------
  // The rows of a request
  // ---------------------------------------------------------------------------

  /** The page of a request, unless its offset overflows. */
  function PageOf(config: Pagination.Config, request: Pagination.Request): Option<Page> {
    match Pagination.QueryOffset(config, request)
    case None => None
    case Some(offset) => Some(Page(Pagination.Clamp(Pagination.QueryPageSize(config, request)), Pagination.Clamp(offset)))
  }

  /** Whatever window the database reads from the query, the rows in it are these. */
  ghost predicate Returns<Row(!new)>(c: Clauses, rows: seq<Row>, page: seq<Row>) {
    && (exists limit, offset :: ReadsWindow(c, limit, offset))
    && forall limit, offset :: ReadsWindow(c, limit, offset) ==> Pagination.Window(rows, limit, offset) == page
  }

  /** The window that is read from a list is the page that was asked for. */
  lemma ListReturnsItsPage<Row(!new)>(q: Request, config: Pagination.Config, request: Pagination.Request, rows: seq<Row>)
    requires SelectsRows(q) && Pagination.QueryOffset(config, request).Some? && q.page == PageOf(config, request)
    requires |rows| <= Pagination.I64_MAX
    ensures Returns(Compiled(q.env, ListTerms(q)), rows, Pagination.Returned(rows, config, request))
    ensures Returns(Compiled(q.env, ListTerms(q)), rows,
                    Pagination.Page(rows, Pagination.QueryPageSize(config, request), Pagination.Max(Pagination.ReportedPage(request), 1)))
  {
    var c, page := Compiled(q.env, ListTerms(q)), q.page.value;
    ListReadsItsWindow(q);
    Pagination.ReturnedIsPage(rows, config, request);
    forall limit, offset | ReadsWindow(c, limit, offset)
      ensures Pagination.Window(rows, limit, offset) == Pagination.Returned(rows, config, request)
    {
      OneWindow(c, page.limit, page.offset, limit, offset);
    }
  }

  /** A list for a page whose offset does not overflow: the query that is built returns that page of any rows. */
  method BuildListPage<Row(!new)>(q: Request, config: Pagination.Config, request: Pagination.Request)
    returns (r: Result<BuiltQuery, QueryError>)
    requires Pagination.QueryOffset(config, request).Some?
    ensures r.Ok? <==> SelectsRows(q) && q.sorting.Ok?
    ensures r.Ok? ==> forall rows: seq<Row> :: |rows| <= Pagination.I64_MAX ==>
              Returns(r.value.clauses, rows, Pagination.Returned(rows, config, request))
  {
    var paged := q.(page := PageOf(config, request));
    r := BuildSelectList(paged);
    if r.Ok? {
      forall rows: seq<Row> | |rows| <= Pagination.I64_MAX
        ensures Returns(r.value.clauses, rows, Pagination.Returned(rows, config, request))
      {
        ListReturnsItsPage(paged, config, request, rows);
      }
    }
  }
}
