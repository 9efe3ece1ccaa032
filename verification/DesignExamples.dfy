/** An example for the core design-baseline machine: one valid change that is accepted in one valid state and refused in
  * another. */
module DesignExamples {
  import opened Wrappers
  import opened Utf16
  import opened Documents
  import opened RepositoryState
  import opened DesignBudgets
  import opened DesignBaseline

  const ALL_VALID := Checks(_ => true, _ => true, _ => true)

  function ListedIds(): Val
  {
    Record(map[SCREEN_IDS := List([]), ROUTE_PATHS := List([]), SCENARIO_IDS := List([]), COMPONENT_IDS := List([]),
               STABLE_NODE_IDS := List([])])
  }

  function OneDescription(): Val { List([Record(map[Ascii("description") := Str(Ascii("a picture"))])]) }

  function AnActor(): Val { Record(map[Ascii("kind") := Str(Ascii("actor")), Ascii("actorId") := Str(Ascii("a"))]) }

  function ExampleBody(): Val
  {
    Record(map[AFFECTED := ListedIds(), EVIDENCE := OneDescription(), PROVENANCE := AnActor(),
               Ascii("kind") := Str(Ascii("source")), Ascii("reason") := Str(Ascii("a reason"))])
  }

  const BEFORE := Reference(Ascii("before"), Ascii("f"))
  const AFTER := Reference(Ascii("current"), Ascii("g"))

  /** A small change with all that a valid one holds. */
  function ExampleChange(): Change
  {
    Change(Ascii("c"), Ascii("p"), BEFORE, AFTER, Ascii("2024-01-01T00:00:00Z"), ExampleBody())
  }

  function ExampleBaseline(): Baseline
  {
    Baseline(Ascii("b"), Ascii("p"), BEFORE, Review, Ascii("a"), Ascii("2024-01-01T00:00:00Z"))
  }

  function ExampleStart(): DesignState { Described(Ascii("p"), Some(ExampleBaseline()), []) }

  lemma {:induction false} SmallTaller(t: Val, height: nat, taller: nat)
    requires Small(t, height) && height <= taller
    ensures Small(t, taller)
    decreases t
  {
    match t
    case List(items) =>
      forall item <- items ensures Small(item, taller - 1) { SmallTaller(item, height - 1, taller - 1); }
    case Record(fields) =>
      forall k <- fields ensures Small(fields[k], taller - 1) { SmallTaller(fields[k], height - 1, taller - 1); }
    case _ =>
  }

  /** At most `n` small fields. */
  predicate SmallFields(fields: map<Text, Val>, n: nat, height: nat)
  {
    |fields| <= n && forall k <- fields :: |k| <= 24 && Small(fields[k], height)
  }

  lemma SmallRecord(fields: map<Text, Val>, n: nat, height: nat)
    requires SmallFields(fields, n, height) && n <= 9
    ensures Small(Record(fields), height + 1)
  {}

  lemma SmallPut(fields: map<Text, Val>, n: nat, height: nat, k: Text, v: Val)
    requires SmallFields(fields, n, height) && |k| <= 24 && Small(v, height)
    ensures SmallFields(fields[k := v], n + 1, height)
  {}

  lemma SmallReplace(fields: map<Text, Val>, n: nat, height: nat, k: Text, v: Val)
    requires SmallFields(fields, n, height) && k in fields && Small(v, height)
    ensures SmallFields(fields[k := v], n, height)
  {
    assert fields[k := v].Keys == fields.Keys;
    assert |fields[k := v]| == |fields[k := v].Keys| && |fields| == |fields.Keys|;
  }

  lemma SmallTexts(height: nat)
    ensures forall s: Text :: |s| <= 24 ==> Small(Str(s), height)
  {}

  lemma SmallOne(a: Text, v: Val, height: nat)
    requires |a| <= 24 && Small(v, height)
    ensures SmallFields(map[a := v], 1, height)
  {}

  lemma SmallTwo(a: Text, v: Val, b: Text, w: Val, height: nat)
    requires |a| <= 24 && |b| <= 24 && Small(v, height) && Small(w, height)
    ensures SmallFields(map[a := v, b := w], 2, height)
  {}

  lemma SmallFive(a: Text, v: Val, b: Text, w: Val, c: Text, x: Val, d: Text, y: Val, e: Text, z: Val, height: nat)
    requires |a| <= 24 && |b| <= 24 && |c| <= 24 && |d| <= 24 && |e| <= 24
    requires Small(v, height) && Small(w, height) && Small(x, height) && Small(y, height) && Small(z, height)
    ensures SmallFields(map[a := v, b := w, c := x, d := y, e := z], 5, height)
  {
    hide SmallFields;
    SmallTwo(a, v, b, w, height);
    var two := map[a := v, b := w];
    SmallPut(two, 2, height, c, x);
    SmallPut(two[c := x], 3, height, d, y);
    SmallPut(two[c := x][d := y], 4, height, e, z);
    assert two[c := x][d := y][e := z] == map[a := v, b := w, c := x, d := y, e := z];
  }

  lemma SmallReference(r: Reference)
    requires |r.id| <= 24 && |r.fingerprint| <= 24
    ensures Small(ReferenceValue(r), 1)
  {
    hide Ascii, SmallFields;
    SmallTwo(ID, Str(r.id), FINGERPRINT, Str(r.fingerprint), 0);
    SmallRecord(ReferenceValue(r).fields, 2, 0);
  }

  lemma SmallActor()
    ensures Small(AnActor(), 1)
  {
    hide Ascii, SmallFields, Small;
    SmallTexts(0);
    SmallTwo(Ascii("kind"), Str(Ascii("actor")), Ascii("actorId"), Str(Ascii("a")), 0);
    SmallRecord(AnActor().fields, 2, 0);
  }

  lemma SmallDescription()
    ensures Small(OneDescription(), 2)
  {
    hide Ascii, SmallFields;
    SmallOne(Ascii("description"), Str(Ascii("a picture")), 0);
    SmallRecord(OneDescription().items[0].fields, 1, 0);
  }

  lemma EmptySmall()
    ensures Small(List([]), 1)
  {}

  lemma SmallAffected()
    ensures Small(Record(ListedIds().fields[PROJECT_ID := Str(Ascii("p"))]), 2)
  {
    hide Ascii, SmallFields, Small;
    EmptySmall();
    SmallTexts(1);
    var none := List([]);
    SmallFive(SCREEN_IDS, none, ROUTE_PATHS, none, SCENARIO_IDS, none, COMPONENT_IDS, none, STABLE_NODE_IDS, none, 1);
    SmallPut(ListedIds().fields, 5, 1, PROJECT_ID, Str(Ascii("p")));
    SmallRecord(ListedIds().fields[PROJECT_ID := Str(Ascii("p"))], 6, 1);
  }

  lemma BodyFields()
    ensures var body := ExampleBody();
            && body.Record? && AFFECTED in body.fields && FieldOf(body, AFFECTED) == ListedIds()
            && FieldOf(body, EVIDENCE) == OneDescription() && FieldOf(body, PROVENANCE) == AnActor()
  {
    hide ListedIds, OneDescription, AnActor;
    assert EVIDENCE[0] == 0x65 && AFFECTED[0] == 0x61;
  }

  lemma SmallBody()
    ensures SmallFields(ExampleBody().fields, 5, 2)
  {
    hide Ascii, SmallFields, Small, ListedIds, OneDescription, AnActor;
    SmallActor();
    SmallDescription();
    SmallIds();
    SmallTexts(2);
    SmallTaller(AnActor(), 1, 2);
    SmallFive(AFFECTED, ListedIds(), EVIDENCE, OneDescription(), PROVENANCE, AnActor(), Ascii("kind"),
              Str(Ascii("source")),
              Ascii("reason"), Str(Ascii("a reason")), 2);
  }

  lemma SmallIds()
    ensures Small(ListedIds(), 2)
  {
    hide Ascii, SmallFields, Small;
    EmptySmall();
    var none := List([]);
    SmallFive(SCREEN_IDS, none, ROUTE_PATHS, none, SCENARIO_IDS, none, COMPONENT_IDS, none, STABLE_NODE_IDS, none, 1);
    SmallRecord(ListedIds().fields, 5, 1);
  }

  lemma AffectedIs()
    ensures AffectedValue(ExampleChange()) == Record(ListedIds().fields[PROJECT_ID := Str(Ascii("p"))])
  {
    hide ExampleBody;
    BodyFields();
  }

  lemma ChangeOfSmall(c: Change)
    requires SmallFields(FieldsOf(c.body), 5, 2) && AFFECTED in FieldsOf(c.body) && Small(AffectedValue(c), 2)
    requires Small(ReferenceValue(c.before), 2) && Small(ReferenceValue(c.current), 2) && |c.id| <= 24
             && |c.occurredAt| <= 24
    ensures Small(ChangeValue(c), 3)
  {
    hide Ascii, SmallFields, Small, ReferenceValue, AffectedValue;
    SmallTexts(2);
    var f0 := FieldsOf(c.body);
    var f1 := f0[ID := Str(c.id)];
    var f2 := f1[BEFORE_REVISION := ReferenceValue(c.before)];
    var f3 := f2[CURRENT_REVISION := ReferenceValue(c.current)];
    var f4 := f3[AFFECTED := AffectedValue(c)];
    SmallPut(f0, 5, 2, ID, Str(c.id));
    SmallPut(f1, 6, 2, BEFORE_REVISION, ReferenceValue(c.before));
    SmallPut(f2, 7, 2, CURRENT_REVISION, ReferenceValue(c.current));
    SmallReplace(f3, 8, 2, AFFECTED, AffectedValue(c));
    SmallPut(f4, 8, 2, OCCURRED_AT, Str(c.occurredAt));
    SmallRecord(ChangeValue(c).fields, 9, 2);
  }

  lemma SmallChange()
    ensures Small(ChangeValue(ExampleChange()), 3)
  {
    hide Ascii, SmallFields, Small, ExampleBody, ListedIds, ReferenceValue, FieldOf, AffectedValue, ChangeValue;
    SmallBody();
    BodyFields();
    SmallReference(BEFORE);
    SmallReference(AFTER);
    SmallTaller(ReferenceValue(BEFORE), 1, 2);
    SmallTaller(ReferenceValue(AFTER), 1, 2);
    SmallAffected();
    AffectedIs();
    ChangeOfSmall(ExampleChange());
  }

  lemma SmallBaseline()
    ensures Small(BaselineValue(ExampleBaseline()), 2)
  {
    hide Ascii, SmallFields, Small, ReferenceValue;
    SmallReference(BEFORE);
    SmallTexts(1);
    var b := ExampleBaseline();
    SmallFive(ID, Str(b.id), PROJECT_ID, Str(b.projectId), REVISION, ReferenceValue(BEFORE), INTENT,
              Str(IntentText(Review)),
              CREATED_AT, Str(b.createdAt), 1);
    var five := map[ID := Str(b.id), PROJECT_ID := Str(b.projectId), REVISION := ReferenceValue(BEFORE),
                    INTENT := Str(IntentText(Review)), CREATED_AT := Str(b.createdAt)];
    SmallPut(five, 5, 1, CREATED_BY, Str(b.createdBy));
    assert BaselineValue(b).fields == five[CREATED_BY := Str(b.createdBy)];
    SmallRecord(BaselineValue(b).fields, 6, 1);
  }

  lemma SmallState(changes: seq<Change>)
    requires changes == [] || changes == [ExampleChange()]
    ensures Small(StateValue(Described(Ascii("p"), Some(ExampleBaseline()), changes)), 5)
  {
    hide Ascii, SmallFields, Small, BaselineValue, ChangeValue, ExampleChange, ExampleBaseline;
    var d := Described(Ascii("p"), Some(ExampleBaseline()), changes);
    SmallChanges(changes);
    SmallBaseline();
    SmallTaller(BaselineValue(ExampleBaseline()), 2, 4);
    SmallTexts(4);
    SmallFlag(4);
    SmallFive(PROJECT_ID, Str(d.projectId), READINESS, Str(ReadinessText(d.readiness)), CURRENCY,
              Str(CurrencyText(d.currency)),
              CHANGES, ChangeValues(d.changes), APPROVALS_STALE, Bool(d.approvalsStale), 4);
    var five := map[PROJECT_ID := Str(d.projectId), READINESS := Str(ReadinessText(d.readiness)),
                    CURRENCY := Str(CurrencyText(d.currency)), CHANGES := ChangeValues(d.changes),
                    APPROVALS_STALE := Bool(d.approvalsStale)];
    SmallPut(five, 5, 4, BASELINE, BaselineValue(ExampleBaseline()));
    SmallRecord(StateValue(d).fields, 6, 4);
  }

  lemma SmallFlag(height: nat)
    ensures forall b: bool :: Small(Bool(b), height)
  {}

  lemma SmallChanges(changes: seq<Change>)
    requires changes == [] || changes == [ExampleChange()]
    ensures Small(ChangeValues(changes), 4)
  {
    hide ChangeValue, ExampleChange;
    SmallChange();
  }

  lemma SmallCommand()
    ensures Small(CommandValue(ApplyMutation(ExampleChange())), 4)
  {
    hide Ascii, SmallFields, Small, ChangeValue, ExampleChange;
    SmallChange();
    SmallTexts(3);
    SmallTwo(TYPE, Str(Ascii("apply-design-mutation")), CHANGE, ChangeValue(ExampleChange()), 3);
    SmallRecord(CommandValue(ApplyMutation(ExampleChange())).fields, 2, 3);
  }

  lemma ExampleValid()
    ensures ValidChange(ExampleChange(), Ascii("p"), ALL_VALID)
  {
    hide ExampleBody, FieldOf, Ascii;
    BodyFields();
    ListedLists();
    ExampleDescribed();
  }

  lemma ListedLists()
    ensures var ids := ListedIds();
            && FieldOf(ids, SCREEN_IDS).List? && FieldOf(ids, ROUTE_PATHS).List? && FieldOf(ids, SCENARIO_IDS).List?
            && FieldOf(ids, COMPONENT_IDS).List? && FieldOf(ids, STABLE_NODE_IDS).List?
  {
    hide Ascii;
  }

  lemma ExampleDescribed()
    ensures OneDescription().items != [] && forall item <- OneDescription().items :: item.Record?
  {}

  lemma ExampleAccepted()
    ensures ValidCore(ExampleStart(), ALL_VALID)
            && Execute(ExampleStart(), ApplyMutation(ExampleChange()), ALL_VALID).Some?
  {
    hide Portable, StateValue, CommandValue, ExampleChange, ExampleBaseline, Ascii, Small, Complete;
    var next := Described(Ascii("p"), Some(ExampleBaseline()), [ExampleChange()]);
    SmallState([]);
    SmallState([ExampleChange()]);
    SmallCommand();
    SmallTaller(CommandValue(ApplyMutation(ExampleChange())), 4, 5);
    SmallPortable(StateValue(ExampleStart()));
    SmallPortable(StateValue(next));
    SmallPortable(CommandValue(ApplyMutation(ExampleChange())));
    ExampleValid();
    ExampleOwned();
    assert Extended(ExampleStart(), ExampleChange()) == next;
  }

  lemma ExampleOwned()
    ensures ExampleBaseline().projectId == Ascii("p")
  {}

  /** Acceptance depends on the state: a valid change accepted in one valid state and refused in another, of the same
    * project and baseline. */
  lemma SameChangeRefused()
    ensures ValidCore(ExampleStart(), ALL_VALID)
            && Execute(ExampleStart(), ApplyMutation(ExampleChange()), ALL_VALID).Some?
    ensures exists d :: && ValidCore(d, ALL_VALID) && d.projectId == ExampleStart().projectId
              && d.baseline == ExampleStart().baseline
                        && Execute(d, ApplyMutation(ExampleChange()), ALL_VALID).None?
  {
    hide Execute, ValidCore, Run, ExampleBaseline, ExampleChange, Ascii;
    var start, commands := ExampleStart(), Repeated(ExampleChange(), MAX_CHANGES);
    ExampleAccepted();
    RefusedInTheEnd(start, ExampleChange(), MAX_CHANGES, ALL_VALID);
    RunKeeps(start, commands, ALL_VALID);
    RunIsFold(start, commands, ALL_VALID);
    SameBaseline(start.baseline, start.projectId, commands, ALL_VALID);
  }
}
