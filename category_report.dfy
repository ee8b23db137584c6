/**
  `CategoryReportQueryForm`: the filter a category or tag report applies
  to balance flows. The form holds optional filters; building the query
  feeds one condition per filter that is set into a `BooleanBuilder`, so the
  query means the conjunction of those filters.

  `Matches` states that conjunction directly; the builder methods are
  proved to produce a query with exactly that meaning.
*/
module CategoryReport {
  import opened Common

  type BookId = nat
  type PayeeId = nat
  type AccountId = nat
  type CategoryId = nat
  type TagId = nat
  /** A value of the `FlowType` enum; only compared for equality here. */
  type FlowType = nat

  /** The columns of a balance flow the filters read. A null title, payee,
      account or to-account is `None`; `categories` and `tags` are the ids
      its category and tag relations point to. */
  datatype Flow = Flow(
    book: BookId,
    flowType: FlowType,
    createTime: int,
    title: Option<string>,
    payee: Option<PayeeId>,
    account: Option<AccountId>,
    to: Option<AccountId>,
    categories: set<CategoryId>,
    tags: set<TagId>,
    confirm: bool,
    included: bool)

  /** The form's fields; every one but `book` may be null. */
  datatype Form = Form(
    book: BookId,
    minTime: Option<int>,
    maxTime: Option<int>,
    title: Option<string>,
    payees: Option<set<PayeeId>>,
    categories: Option<set<CategoryId>>,
    tags: Option<set<TagId>>,
    account: Option<AccountId>)

  /** A filter that is unset lets every flow through. */
  predicate Unset<T>(filter: Option<T>) {
    filter.None?
  }

  /** Lines 30-34: on or after the minimum time. */
  predicate MinTimeOk(form: Form, flow: Flow) {
    form.minTime.Some? ==> flow.createTime >= form.minTime.value
  }

  /** Lines 35-39: on or before the maximum time. */
  predicate MaxTimeOk(form: Form, flow: Flow) {
    form.maxTime.Some? ==> flow.createTime <= form.maxTime.value
  }

  /** Lines 40-42: the title contains the text. */
  predicate TitleOk(form: Form, flow: Flow) {
    form.title.Some? ==> flow.title.Some? && Contains(flow.title.value, form.title.value)
  }

  /** Lines 43-45: the payee is one of the payees. */
  predicate PayeeOk(form: Form, flow: Flow) {
    form.payees.Some? ==> flow.payee.Some? && flow.payee.value in form.payees.value
  }

  /** Lines 46-50: the flow leaves or enters the account. */
  predicate AccountOk(form: Form, flow: Flow) {
    form.account.Some? ==> flow.account == form.account || flow.to == form.account
  }

  /** Lines 51-53: some category of the flow is one of the categories. */
  predicate CategoryOk(form: Form, flow: Flow) {
    form.categories.Some? ==> exists c | c in flow.categories :: c in form.categories.value
  }

  /** Lines 54-56: some tag of the flow is one of the tags. */
  predicate TagOk(form: Form, flow: Flow) {
    form.tags.Some? ==> exists t | t in flow.tags :: t in form.tags.value
  }

  /** What the optional filters of `buildPredicate` require of a flow: every
      filter that is set holds. A comparison with a null column never
      holds. */
  predicate Matches(form: Form, flow: Flow) {
    && MinTimeOk(form, flow) && MaxTimeOk(form, flow) && TitleOk(form, flow) && PayeeOk(form, flow)
    && AccountOk(form, flow) && CategoryOk(form, flow) && TagOk(form, flow)
  }

  /** The flows a category report counts: flows of the book, confirmed and
      included, that the form's filters let through. */
  predicate CategoryMatches(form: Form, book: BookId, flow: Flow) {
    flow.book == book && flow.confirm && flow.included && Matches(form, flow)
  }

  /** The flows a tag report counts: the same, restricted to one flow type. */
  predicate TagMatches(form: Form, book: BookId, flowType: FlowType, flow: Flow) {
    flow.book == book && flow.flowType == flowType && flow.confirm && flow.included && Matches(form, flow)
  }

  /** The query conditions the form builds, as a tree. */
  datatype Condition =
    | BookIs(book: BookId)
    | TypeIs(flowType: FlowType)
    | ConfirmIs(confirm: bool)
    | IncludeIs(included: bool)
    | CreatedAtLeast(time: int)
    | CreatedAtMost(time: int)
    | TitleContains(text: string)
    | PayeeIn(payees: set<PayeeId>)
    | AccountIs(account: AccountId)
    | ToIs(account: AccountId)
    | AnyCategoryIn(categories: set<CategoryId>)
    | AnyTagIn(tags: set<TagId>)
    | And(left: Condition, right: Condition)
    | Or(left: Condition, right: Condition)

  /** What a condition means for one flow, as the database evaluates it. */
  predicate Holds(c: Condition, flow: Flow) {
    match c
    case BookIs(b) => flow.book == b
    case TypeIs(t) => flow.flowType == t
    case ConfirmIs(v) => flow.confirm == v
    case IncludeIs(v) => flow.included == v
    case CreatedAtLeast(t) => flow.createTime >= t
    case CreatedAtMost(t) => flow.createTime <= t
    case TitleContains(text) => flow.title.Some? && Contains(flow.title.value, text)
    case PayeeIn(ps) => flow.payee.Some? && flow.payee.value in ps
    case AccountIs(a) => flow.account == Some(a)
    case ToIs(a) => flow.to == Some(a)
    case AnyCategoryIn(cs) => exists c | c in flow.categories :: c in cs
    case AnyTagIn(ts) => exists t | t in flow.tags :: t in ts
    case And(l, r) => Holds(l, flow) && Holds(r, flow)
    case Or(l, r) => Holds(l, flow) || Holds(r, flow)
  }

  /** A builder's condition: none yet lets every flow through. */
  predicate Accepts(p: Option<Condition>, flow: Flow) {
    p.None? || Holds(p.value, flow)
  }

  /** QueryDSL's `BooleanBuilder`: a predicate that `and` and `or` extend in
      place. */
  class BooleanBuilder {
    var condition: Option<Condition>

    /** `new BooleanBuilder(initial)`. */
    constructor (initial: Condition)
      ensures condition == Some(initial)
    {
      condition := Some(initial);
    }

    /** `and(right)`: the predicate now also requires `right`. */
    method AndAlso(right: Condition)
      modifies this
      ensures condition == Some(if old(condition).None? then right else And(old(condition).value, right))
      ensures forall flow :: Accepts(condition, flow) == (Accepts(old(condition), flow) && Holds(right, flow))
    {
      condition := Some(if condition.None? then right else And(condition.value, right));
    }

    /** `or(right)` on a builder that has a condition: it now also accepts
        what `right` does. */
    method OrElse(right: Condition)
      requires condition.Some?
      modifies this
      ensures condition == Some(Or(old(condition).value, right))
      ensures forall flow :: Accepts(condition, flow) == (Accepts(old(condition), flow) || Holds(right, flow))
    {
      condition := Some(Or(condition.value, right));
    }
  }

  /** Lines 47-49: a builder for "the account is `a`" extended by `or`
      with "the to-account is `a`"; its condition holds for a flow from or
      to the account. */
  method AccountCondition(a: AccountId) returns (c: Condition)
    ensures forall flow :: Holds(c, flow) == (flow.account == Some(a) || flow.to == Some(a))
  {
    var accountSide := new BooleanBuilder(AccountIs(a));
    var toSide := new BooleanBuilder(ToIs(a));
    accountSide.OrElse(toSide.condition.value);
    c := accountSide.condition.value;
  }

  /** The seven optional filters, in the order `buildPredicate` applies
      them. */
  datatype Filter = MinTime | MaxTime | Title | Payees | Account | Categories | Tags

  predicate FilterOk(f: Filter, form: Form, flow: Flow) {
    match f
    case MinTime => MinTimeOk(form, flow)
    case MaxTime => MaxTimeOk(form, flow)
    case Title => TitleOk(form, flow)
    case Payees => PayeeOk(form, flow)
    case Account => AccountOk(form, flow)
    case Categories => CategoryOk(form, flow)
    case Tags => TagOk(form, flow)
  }

  /** The condition `buildPredicate` builds for filter `f` when it is set
      (lines 30-45 and 51-56); the account filter is built by
      `AccountCondition` instead. A filter that is unset lets every flow
      through; a set one's condition holds exactly when the filter does. */
  function FilterCondition(f: Filter, form: Form): (c: Option<Condition>)
    requires f != Account
    ensures c.None? ==> forall flow :: FilterOk(f, form, flow)
    ensures c.Some? ==> forall flow :: Holds(c.value, flow) == FilterOk(f, form, flow)
  {
    match f
    case MinTime => if form.minTime.Some? then Some(CreatedAtLeast(form.minTime.value)) else None
    case MaxTime => if form.maxTime.Some? then Some(CreatedAtMost(form.maxTime.value)) else None
    case Title => if form.title.Some? then Some(TitleContains(form.title.value)) else None
    case Payees => if form.payees.Some? then Some(PayeeIn(form.payees.value)) else None
    case Categories => if form.categories.Some? then Some(AnyCategoryIn(form.categories.value)) else None
    case Tags => if form.tags.Some? then Some(AnyTagIn(form.tags.value)) else None
  }

  /** A builder's condition after `and(c)` when `c` is set. */
  function AndIfSetValue(p: Option<Condition>, c: Option<Condition>): (r: Option<Condition>)
    ensures p.Some? ==> r.Some?
    ensures forall flow :: Accepts(r, flow) == (Accepts(p, flow) && (c.Some? ==> Holds(c.value, flow)))
  {
    if c.None? then p else Some(if p.None? then c.value else And(p.value, c.value))
  }

  /** `booleanBuilder.and(c)` when its filter is set. */
  method AndIfSet(builder: BooleanBuilder, c: Option<Condition>)
    modifies builder
    ensures builder.condition == AndIfSetValue(old(builder.condition), c)
  {
    if c.Some? {
      builder.AndAlso(c.value);
    }
  }

  /** One step of `buildPredicate`: the builder's condition after the step
      accepts what it accepted before that also passes the filter. */
  lemma FilterStep(p: Option<Condition>, c: Option<Condition>, f: Filter, form: Form, flow: Flow)
    requires c.None? ==> forall flow :: FilterOk(f, form, flow)
    requires c.Some? ==> forall flow :: Holds(c.value, flow) == FilterOk(f, form, flow)
    ensures Accepts(AndIfSetValue(p, c), flow) == (Accepts(p, flow) && FilterOk(f, form, flow))
  {
  }

  /** `buildPredicate`: adds one condition per filter that is set, in the
      order of the fields; the builder then accepts exactly the flows it
      accepted before that also match the form. Nothing already in the
      builder is lost. */
  method BuildPredicate(form: Form, builder: BooleanBuilder)
    modifies builder
    ensures old(builder.condition).Some? ==> builder.condition.Some?
    ensures forall flow :: Accepts(builder.condition, flow) == (Accepts(old(builder.condition), flow) && Matches(form, flow))
  {
    ghost var c0 := builder.condition;
    AndIfSet(builder, FilterCondition(MinTime, form));
    ghost var c1 := builder.condition;
    AndIfSet(builder, FilterCondition(MaxTime, form));
    ghost var c2 := builder.condition;
    AndIfSet(builder, FilterCondition(Title, form));
    ghost var c3 := builder.condition;
    AndIfSet(builder, FilterCondition(Payees, form));
    ghost var c4 := builder.condition;
    var either: Option<Condition> := None;
    if form.account.Some? {
      var c := AccountCondition(form.account.value);
      either := Some(c);
    }
    AndIfSet(builder, either);
    ghost var c5 := builder.condition;
    AndIfSet(builder, FilterCondition(Categories, form));
    ghost var c6 := builder.condition;
    AndIfSet(builder, FilterCondition(Tags, form));
    forall flow
      ensures Accepts(builder.condition, flow) == (Accepts(c0, flow) && Matches(form, flow))
    {
      FilterStep(c0, FilterCondition(MinTime, form), MinTime, form, flow);
      FilterStep(c1, FilterCondition(MaxTime, form), MaxTime, form, flow);
      FilterStep(c2, FilterCondition(Title, form), Title, form, flow);
      FilterStep(c3, FilterCondition(Payees, form), Payees, form, flow);
      FilterStep(c4, either, Account, form, flow);
      FilterStep(c5, FilterCondition(Categories, form), Categories, form, flow);
      FilterStep(c6, FilterCondition(Tags, form), Tags, form, flow);
    }
  }

  /** `buildCategoryPredicate`: the query of a category report accepts
      exactly the flows `CategoryMatches` describes. */
  method BuildCategoryPredicate(form: Form, book: BookId) returns (builder: BooleanBuilder)
    ensures fresh(builder)
    ensures builder.condition.Some?
    ensures forall flow :: Accepts(builder.condition, flow) == CategoryMatches(form, book, flow)
  {
    builder := new BooleanBuilder(BookIs(book));
    builder.AndAlso(ConfirmIs(true));
    builder.AndAlso(IncludeIs(true));
    BuildPredicate(form, builder);
  }

  /** `buildTagPredicate`: the query of a tag report accepts exactly the
      flows `TagMatches` describes. */
  method BuildTagPredicate(form: Form, book: BookId, flowType: FlowType) returns (builder: BooleanBuilder)
    ensures fresh(builder)
    ensures builder.condition.Some?
    ensures forall flow :: Accepts(builder.condition, flow) == TagMatches(form, book, flowType, flow)
  {
    builder := new BooleanBuilder(BookIs(book));
    builder.AndAlso(TypeIs(flowType));
    builder.AndAlso(ConfirmIs(true));
    builder.AndAlso(IncludeIs(true));
    BuildPredicate(form, builder);
  }

  /** A tag report counts exactly the flows of one type that the category
      report with the same form counts. */
  lemma TagIsCategoryOfType(form: Form, book: BookId, flowType: FlowType, flow: Flow)
    ensures TagMatches(form, book, flowType, flow) <==> CategoryMatches(form, book, flow) && flow.flowType == flowType
  {
  }

  /** A form with no filter set lets every flow through. */
  lemma NoFilterMatchesAll(form: Form, flow: Flow)
    requires Unset(form.minTime) && Unset(form.maxTime) && Unset(form.title) && Unset(form.payees)
    requires Unset(form.categories) && Unset(form.tags) && Unset(form.account)
    ensures Matches(form, flow)
  {
  }

  /** Both time bounds are inclusive: a flow created exactly at either bound
      matches them. */
  lemma TimeBoundsInclusive(form: Form, flow: Flow)
    requires form.minTime == Some(flow.createTime) && form.maxTime == Some(flow.createTime)
    requires Unset(form.title) && Unset(form.payees) && Unset(form.categories) && Unset(form.tags)
    requires Unset(form.account)
    ensures Matches(form, flow)
  {
  }

  /** A minimum time after the maximum time matches nothing. */
  lemma EmptyTimeRange(form: Form, flow: Flow)
    requires form.minTime.Some? && form.maxTime.Some? && form.minTime.value > form.maxTime.value
    ensures !Matches(form, flow)
  {
  }

  /** An empty set of payees, categories or tags matches nothing. */
  lemma EmptySetMatchesNothing(form: Form, flow: Flow)
    requires form.payees == Some({}) || form.categories == Some({}) || form.tags == Some({})
    ensures !Matches(form, flow)
  {
  }

  /** The account filter matches a transfer from or to the account. */
  lemma AccountEitherSide(form: Form, flow: Flow, a: AccountId)
    requires form.account == Some(a) && Matches(form, flow)
    ensures flow.account == Some(a) || flow.to == Some(a)
  {
  }

  /** A substring of a substring is a substring. */
  lemma ContainsTransitive(s: string, mid: string, sub: string)
    requires Contains(s, mid) && Contains(mid, sub)
    ensures Contains(s, sub)
  {
    var i :| 0 <= i <= |s| - |mid| && OccursAt(s, mid, i);
    var j :| 0 <= j <= |mid| - |sub| && OccursAt(mid, sub, j);
    assert forall k | 0 <= k < |sub| :: s[i + j + k] == mid[j + k] == sub[k];
    assert OccursAt(s, sub, i + j);
  }

  /** `narrow` filters at least as much as `wide`: each filter `wide` sets,
      `narrow` sets as strictly or more strictly. */
  predicate Narrows(narrow: Form, wide: Form) {
    && (wide.minTime.Some? ==> narrow.minTime.Some? && narrow.minTime.value >= wide.minTime.value)
    && (wide.maxTime.Some? ==> narrow.maxTime.Some? && narrow.maxTime.value <= wide.maxTime.value)
    && (wide.title.Some? ==> narrow.title.Some? && Contains(narrow.title.value, wide.title.value))
    && (wide.payees.Some? ==> narrow.payees.Some? && narrow.payees.value <= wide.payees.value)
    && (wide.account.Some? ==> narrow.account == wide.account)
    && (wide.categories.Some? ==> narrow.categories.Some? && narrow.categories.value <= wide.categories.value)
    && (wide.tags.Some? ==> narrow.tags.Some? && narrow.tags.value <= wide.tags.value)
  }

  /** Setting more filters, or stricter ones, never lets more flows
      through. */
  lemma NarrowerFormMatchesLess(narrow: Form, wide: Form, flow: Flow)
    requires Narrows(narrow, wide) && Matches(narrow, flow)
    ensures Matches(wide, flow)
  {
    if wide.title.Some? {
      ContainsTransitive(flow.title.value, narrow.title.value, wide.title.value);
    }
    if wide.categories.Some? {
      var c :| c in flow.categories && c in narrow.categories.value;
    }
    if wide.tags.Some? {
      var t :| t in flow.tags && t in narrow.tags.value;
    }
  }
}
