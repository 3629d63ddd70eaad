/** The provider that answers NEUTRAL to everything (src/llm/null.py). */
module NullProvider {
  import opened Options
  import opened Chains
  import opened Schemas
  import opened SchemaValues
  import SchemaGuard

  datatype NullError =
    | UnexpectedNumeric
    | NoNeutralMember
    | NoNeutralValue
    | RecursionLimit

  const RATIONALE := "LLM disabled (NullProvider): no qualitative view; defaulted to NEUTRAL."

  /** The first member called NEUTRAL. */
  function NeutralMember(members: seq<EnumMember>): (r: Option<EnumMember>)
    ensures r.Some? <==> exists i :: 0 <= i < |members| && members[i].name == "NEUTRAL"
    ensures r.Some? ==> r.value in members && r.value.name == "NEUTRAL"
  {
    if members == [] then None
    else if members[0].name == "NEUTRAL" then Some(members[0])
    else
      var rest := NeutralMember(members[1..]);
      assert forall i :: 0 <= i < |members| && members[i].name == "NEUTRAL" ==> i > 0 && members[1..][i - 1] == members[i];
      rest
  }

  function NeutralEnum(intBased: bool, members: seq<EnumMember>): Result<Value, NullError> {
    match NeutralMember(members)
    case None => Failure(NoNeutralMember)
    case Some(member) => Success(Member(member.name, intBased || member.numeric))
  }

  /** `depth` is how many more nested models fit on the interpreter's stack. */
  function NeutralFor(schema: Schema, a: Annotation, conviction: bool, depth: nat): Result<Value, NullError>
    decreases depth, 1, a
  {
    match a
    case Annotated(inner, marked) => NeutralFor(schema, inner, conviction || marked, depth)
    case UnionOf(args) =>
      if NoneType in args then Success(NoneValue)
      else if args == [] then Failure(NoNeutralValue)
      else NeutralFor(schema, args[0], conviction, depth)
    case Container(kind, args) =>
      if kind == DictOf then Success(Entries([]))
      else if kind != TupleOf then Success(Items([]))
      else if args == [] || Variadic(args) then Success(Slots([]))
      else NeutralSlots(schema, args, conviction, depth)
    case Nested(m) => if depth == 0 then Failure(RecursionLimit) else NeutralPayload(schema, FieldsOf(schema, m), depth - 1)
    case EmptyTuple => Success(Slots([]))
    case EnumType(intBased, members) => NeutralEnum(intBased, members)
    case BoolType => Success(BoolValue(false))
    case StrType => Success(StrValue(RATIONALE))
    case IntType => if conviction then Success(IntValue(1)) else Failure(UnexpectedNumeric)
    case _ => Failure(NoNeutralValue)
  }

  /** Slot by slot, for a tuple whose length is fixed. */
  function NeutralSlots(schema: Schema, args: seq<Annotation>, conviction: bool, depth: nat): (r: Result<Value, NullError>)
    ensures r.Success? ==> r.value.Slots?
    decreases depth, 1, args
  {
    if args == [] then Success(Slots([]))
    else
      match NeutralFor(schema, args[0], conviction, depth)
      case Failure(e) => Failure(e)
      case Success(v) =>
        match NeutralSlots(schema, args[1..], conviction, depth)
        case Failure(e) => Failure(e)
        case Success(rest) => Success(Slots([v] + rest.vs))
  }

  /** A field with a default is left to it. */
  function NeutralPayload(schema: Schema, fields: seq<Field>, depth: nat): (r: Result<Value, NullError>)
    ensures r.Success? ==> r.value.Payload?
    decreases depth, 2, |fields|
  {
    if fields == [] then Success(Payload([]))
    else
      var front, f := fields[..|fields| - 1], fields[|fields| - 1];
      match NeutralPayload(schema, front, depth)
      case Failure(e) => Failure(e)
      case Success(before) =>
        if !f.required then Success(before)
        else
          match NeutralFor(schema, f.annotation, f.marked, depth)
          case Failure(e) => Failure(e)
          case Success(v) => Success(Payload(before.fields + [(f.name, v)]))
  }

  /** The loop that fills the payload. */
  method BuildPayload(schema: Schema, fields: seq<Field>, depth: nat) returns (r: Result<Value, NullError>)
    ensures r == NeutralPayload(schema, fields, depth)
  {
    var payload: seq<(string, Value)> := [];
    assert fields[..0] == [];
    for i := 0 to |fields|
      invariant NeutralPayload(schema, fields[..i], depth) == Success(Payload(payload))
    {
      assert fields[..i + 1][..i] == fields[..i];
      if fields[i].required {
        var v := NeutralFor(schema, fields[i].annotation, fields[i].marked, depth);
        if v.Failure? {
          EarlyFailure(schema, fields, i + 1, depth);
          return Failure(v.error);
        }
        payload := payload + [(fields[i].name, v.value)];
      }
    }
    assert fields[..|fields|] == fields;
    r := Success(Payload(payload));
  }

  lemma {:induction false} EarlyFailure(schema: Schema, fields: seq<Field>, n: nat, depth: nat)
    requires n <= |fields| && NeutralPayload(schema, fields[..n], depth).Failure?
    ensures NeutralPayload(schema, fields, depth) == NeutralPayload(schema, fields[..n], depth)
    decreases |fields| - n
  {
    if n == |fields| {
      assert fields[..n] == fields;
    } else {
      assert fields[..n + 1][..n] == fields[..n];
      EarlyFailure(schema, fields, n + 1, depth);
    }
  }

  // ----- neutral values

  /** Every enum member is NEUTRAL, every integer the lowest conviction, every bool false,
      every text the one that says why, and every list, set and dictionary empty. */
  predicate AllNeutral(v: Value)
    decreases v
  {
    match v
    case NoneValue => true
    case BoolValue(b) => !b
    case StrValue(s) => s == RATIONALE
    case IntValue(n) => n == 1
    case Member(name, _) => name == "NEUTRAL"
    case Items(vs) => vs == []
    case Slots(vs) => forall i :: 0 <= i < |vs| ==> AllNeutral(vs[i])
    case Entries(pairs) => pairs == []
    case Payload(fields) => forall i :: 0 <= i < |fields| ==> AllNeutral(fields[i].1)
    case _ => false
  }

  // ----- whatever it returns fits

  lemma {:induction false} NeutralFits(schema: Schema, a: Annotation, conviction: bool, depth: nat)
    ensures var r := NeutralFor(schema, a, conviction, depth);
      r.Success? ==> Inhabits(schema, r.value, a, conviction) && AllNeutral(r.value)
    decreases depth, 1, a
  {
    var r := NeutralFor(schema, a, conviction, depth);
    match a
    case Annotated(inner, marked) =>
      NeutralFits(schema, inner, conviction || marked, depth);
    case UnionOf(args) =>
      if NoneType in args {
        var i :| 0 <= i < |args| && args[i] == NoneType;
        assert Inhabits(schema, NoneValue, args[i], conviction);
      } else if args != [] {
        NeutralFits(schema, args[0], conviction, depth);
        if r.Success? { assert Inhabits(schema, r.value, args[0], conviction); }
      }
    case Container(kind, args) =>
      if kind == TupleOf && args != [] && !Variadic(args) {
        SlotsFit(schema, args, conviction, depth);
      }
    case Nested(m) =>
      if depth > 0 { PayloadFits(schema, FieldsOf(schema, m), depth - 1); }
    case EnumType(intBased, members) =>
      MemberFits(intBased, members);
    case _ =>
  }

  lemma MemberFits(intBased: bool, members: seq<EnumMember>)
    ensures var r := NeutralMember(members);
      r.Some? ==> IsMember(r.value.name, intBased || r.value.numeric, intBased, members)
  {
    var r := NeutralMember(members);
    if r.Some? { var i :| 0 <= i < |members| && members[i] == r.value; }
  }

  lemma {:induction false} SlotsFit(schema: Schema, args: seq<Annotation>, conviction: bool, depth: nat)
    ensures var r := NeutralSlots(schema, args, conviction, depth);
      r.Success? ==>
        && |r.value.vs| == |args|
        && forall i :: 0 <= i < |args| ==> Inhabits(schema, r.value.vs[i], args[i], conviction) && AllNeutral(r.value.vs[i])
    decreases depth, 1, args
  {
    if args != [] {
      NeutralFits(schema, args[0], conviction, depth);
      SlotsFit(schema, args[1..], conviction, depth);
      var r := NeutralSlots(schema, args, conviction, depth);
      if r.Success? {
        var rest := NeutralSlots(schema, args[1..], conviction, depth).value;
        forall i | 0 <= i < |args| ensures Inhabits(schema, r.value.vs[i], args[i], conviction) && AllNeutral(r.value.vs[i]) {
          if i > 0 { assert r.value.vs[i] == rest.vs[i - 1] && args[i] == args[1..][i - 1]; }
        }
      }
    }
  }

  lemma {:induction false} PayloadFits(schema: Schema, fields: seq<Field>, depth: nat)
    ensures var r := NeutralPayload(schema, fields, depth);
      r.Success? ==> FitsModel(schema, r.value, fields) && AllNeutral(r.value)
    decreases depth, 2, |fields|
  {
    if fields != [] {
      var front, f := fields[..|fields| - 1], fields[|fields| - 1];
      PayloadFits(schema, front, depth);
      NeutralFits(schema, f.annotation, f.marked, depth);
      var r := NeutralPayload(schema, fields, depth);
      if r.Success? {
        assert fields == front + [f];
        var before := NeutralPayload(schema, front, depth).value;
        hide Inhabits, FitsModel, NeutralFor;
        FieldAdded(schema, front, f, before, r.value);
        if f.required { FieldNeutral(before.fields, r.value.fields); }
      }
    }
  }

  lemma FieldNeutral(before: seq<(string, Value)>, after: seq<(string, Value)>)
    requires |after| == |before| + 1 && after[..|before|] == before
    requires AllNeutral(Payload(before)) && AllNeutral(after[|before|].1)
    ensures AllNeutral(Payload(after))
  {
    forall i | 0 <= i < |after| ensures AllNeutral(after[i].1) {
      if i < |before| { assert after[i] == before[i]; }
    }
  }

  lemma FieldAdded(schema: Schema, front: seq<Field>, f: Field, before: Value, after: Value)
    requires before.Payload? && after.Payload? && FitsModel(schema, before, front)
    requires !f.required ==> after.fields == before.fields
    requires f.required ==>
      && after.fields != []
      && after.fields == before.fields + [(f.name, after.fields[|after.fields| - 1].1)]
      && Inhabits(schema, after.fields[|after.fields| - 1].1, f.annotation, f.marked)
    ensures FitsModel(schema, after, front + [f])
  {
    var all := front + [f];
    forall g | g in all && g.required ensures exists i :: 0 <= i < |after.fields| && after.fields[i].0 == g.name {
      if g in front {
        var i :| 0 <= i < |before.fields| && before.fields[i].0 == g.name;
        assert after.fields[i].0 == g.name;
      } else {
        assert after.fields[|after.fields| - 1].0 == g.name;
      }
    }
    forall i | 0 <= i < |after.fields|
      ensures exists g :: g in all && g.name == after.fields[i].0 && Inhabits(schema, after.fields[i].1, g.annotation, g.marked)
    {
      if i < |before.fields| {
        assert after.fields[i] == before.fields[i];
        var g :| g in front && g.name == before.fields[i].0 && Inhabits(schema, before.fields[i].1, g.annotation, g.marked);
        assert g in all;
      } else {
        assert f in all;
      }
    }
  }

  function RequiredNames(fields: seq<Field>): seq<string> {
    if fields == [] then []
    else RequiredNames(fields[..|fields| - 1]) + if fields[|fields| - 1].required then [fields[|fields| - 1].name] else []
  }

  function NamesOf(given: seq<(string, Value)>): seq<string> {
    seq(|given|, i requires 0 <= i < |given| => given[i].0)
  }

  /** A payload gives the required fields, in their order, and leaves the others to their
      defaults. */
  lemma {:induction false} PayloadNames(schema: Schema, fields: seq<Field>, depth: nat)
    ensures var r := NeutralPayload(schema, fields, depth); r.Success? ==> NamesOf(r.value.fields) == RequiredNames(fields)
  {
    hide NeutralFor;
    if fields != [] {
      PayloadNames(schema, fields[..|fields| - 1], depth);
      var before := NeutralPayload(schema, fields[..|fields| - 1], depth);
      var r := NeutralPayload(schema, fields, depth);
      if r.Success? && fields[|fields| - 1].required {
        assert r.value.fields == before.value.fields + [r.value.fields[|r.value.fields| - 1]];
      }
    }
  }

  // ----- the guard and the generator agree

  /** Where no number can be written, the generator never meets one. */
  lemma {:induction false} NeverNumeric(schema: Schema, a: Annotation, conviction: bool, depth: nat)
    requires !SchemaGuard.Offends(schema, a, conviction)
    ensures NeutralFor(schema, a, conviction, depth) != Failure(UnexpectedNumeric)
    decreases depth, 1, a
  {
    match a
    case Annotated(inner, marked) =>
      assert forall m :: Mentions(inner, m) ==> Mentions(a, m);
      NeverNumeric(schema, inner, conviction || marked, depth);
    case UnionOf(args) =>
      if NoneType !in args && args != [] && args[0] != Dots {
        ArgumentIsClean(schema, a, args, 0, conviction);
        NeverNumeric(schema, args[0], conviction, depth);
      }
    case Container(kind, args) =>
      if kind == TupleOf {
        forall i | 0 <= i < |args| && args[i] != Dots ensures !SchemaGuard.Offends(schema, args[i], conviction) {
          ArgumentIsClean(schema, a, args, i, conviction);
        }
        SlotsNeverNumeric(schema, args, conviction, depth);
      }
    case Nested(m) =>
      assert Mentions(a, m);
      if depth > 0 {
        forall f | f in FieldsOf(schema, m) ensures !SchemaGuard.Offends(schema, f.annotation, f.marked) {
          FieldIsClean(schema, m, f);
        }
        PayloadNeverNumeric(schema, FieldsOf(schema, m), depth - 1);
      }
    case _ =>
  }

  lemma ArgumentIsClean(schema: Schema, a: Annotation, args: seq<Annotation>, i: nat, ok: bool)
    requires (a.UnionOf? && a.args == args) || (a.Container? && a.args == args)
    requires i < |args| && args[i] != Dots && !SchemaGuard.Offends(schema, a, ok)
    ensures !SchemaGuard.Offends(schema, args[i], ok)
  {
    forall m | Mentions(args[i], m) ensures Mentions(a, m) {}
  }

  lemma FieldIsClean(schema: Schema, m: ModelId, f: Field)
    requires NumberFree(schema, m) && f in FieldsOf(schema, m)
    ensures !SchemaGuard.Offends(schema, f.annotation, f.marked)
  {
    CleanHere(schema, m);
    forall n | Mentions(f.annotation, n) ensures NumberFree(schema, n) {
      NumberFreeStep(schema, m, n);
    }
  }

  lemma {:induction false} SlotsNeverNumeric(schema: Schema, args: seq<Annotation>, conviction: bool, depth: nat)
    requires forall i :: 0 <= i < |args| && args[i] != Dots ==> !SchemaGuard.Offends(schema, args[i], conviction)
    ensures NeutralSlots(schema, args, conviction, depth) != Failure(UnexpectedNumeric)
    decreases depth, 1, args
  {
    if args != [] {
      if args[0] != Dots { NeverNumeric(schema, args[0], conviction, depth); }
      SlotsNeverNumeric(schema, args[1..], conviction, depth);
    }
  }

  lemma {:induction false} PayloadNeverNumeric(schema: Schema, fields: seq<Field>, depth: nat)
    requires forall f :: f in fields ==> !SchemaGuard.Offends(schema, f.annotation, f.marked)
    ensures NeutralPayload(schema, fields, depth) != Failure(UnexpectedNumeric)
    decreases depth, 2, |fields|
  {
    if fields != [] {
      var front, f := fields[..|fields| - 1], fields[|fields| - 1];
      PayloadNeverNumeric(schema, front, depth);
      assert f in fields;
      NeverNumeric(schema, f.annotation, f.marked, depth);
    }
  }

  /** For every model the guard accepts, however its models refer to one another, the
      generator never meets an unexpected number, and whatever it returns fits the model
      with every enum NEUTRAL and every integer the lowest conviction. */
  lemma GuardAndGeneratorAgree(schema: Schema, root: ModelId, depth: nat)
    requires NumberFree(schema, root)
    ensures var r := NeutralPayload(schema, FieldsOf(schema, root), depth);
      && r != Failure(UnexpectedNumeric)
      && (r.Success? ==> FitsModel(schema, r.value, FieldsOf(schema, root)) && AllNeutral(r.value))
  {
    forall f | f in FieldsOf(schema, root) ensures !SchemaGuard.Offends(schema, f.annotation, f.marked) {
      FieldIsClean(schema, root, f);
    }
    PayloadNeverNumeric(schema, FieldsOf(schema, root), depth);
    PayloadFits(schema, FieldsOf(schema, root), depth);
  }

  // ----- when it stops

  /** The models a neutral value of `a` has to build. */
  predicate Demands(a: Annotation, m: ModelId) {
    match a
    case Annotated(inner, _) => Demands(inner, m)
    case UnionOf(args) => NoneType !in args && args != [] && Demands(args[0], m)
    case Container(kind, args) =>
      kind == TupleOf && !Variadic(args) && exists i :: 0 <= i < |args| && Demands(args[i], m)
    case Nested(n) => n == m
    case _ => false
  }

  /** A required field of `m` demands `n`. */
  predicate Requires(schema: Schema, m: ModelId, n: ModelId) {
    exists f :: f in FieldsOf(schema, m) && f.required && Demands(f.annotation, n)
  }

  function Requiring(schema: Schema): Step {
    (m, n) => Requires(schema, m, n)
  }

  /** Everything a neutral value of `a` has to write has a neutral answer. */
  predicate Neutral(a: Annotation, conviction: bool) {
    match a
    case Annotated(inner, marked) => Neutral(inner, conviction || marked)
    case UnionOf(args) => NoneType in args || (args != [] && Neutral(args[0], conviction))
    case Container(kind, args) =>
      kind == TupleOf && !Variadic(args) ==> forall i :: 0 <= i < |args| ==> Neutral(args[i], conviction)
    case EmptyTuple => true
    case Nested(_) => true
    case EnumType(_, members) => exists i :: 0 <= i < |members| && members[i].name == "NEUTRAL"
    case BoolType => true
    case StrType => true
    case IntType => conviction
    case _ => false
  }

  predicate NeutralModel(schema: Schema, m: ModelId) {
    forall f :: f in FieldsOf(schema, m) && f.required ==> Neutral(f.annotation, f.marked)
  }

  predicate Answers(schema: Schema, m: ModelId, depth: nat) {
    NeutralPayload(schema, FieldsOf(schema, m), depth).Success?
  }

  /** Every model demanded by `a` is answered one level further down. */
  ghost predicate AnsweredBelow(schema: Schema, a: Annotation, depth: nat) {
    forall m :: Demands(a, m) ==> depth > 0 && Answers(schema, m, depth - 1)
  }

  /** One annotation is answered exactly when all it writes is neutral and all it demands is
      answered. */
  lemma {:induction false} ForExactly(schema: Schema, a: Annotation, conviction: bool, depth: nat)
    ensures NeutralFor(schema, a, conviction, depth).Success? <==> Neutral(a, conviction) && AnsweredBelow(schema, a, depth)
    decreases a, 0
  {
    hide Answers;
    match a
    case Annotated(inner, marked) =>
      assert forall m :: Demands(inner, m) <==> Demands(a, m);
      ForExactly(schema, inner, conviction || marked, depth);
    case UnionOf(args) =>
      if NoneType !in args && args != [] {
        assert forall m :: Demands(args[0], m) <==> Demands(a, m);
        ForExactly(schema, args[0], conviction, depth);
      }
    case Container(kind, args) =>
      if kind == TupleOf && !Variadic(args) {
        SlotsBelow(schema, a, depth);
        SlotsExactly(schema, args, conviction, depth);
      }
    case Nested(m) =>
      NestedExactly(schema, m, conviction, depth);
    case _ =>
  }

  lemma SlotsBelow(schema: Schema, a: Annotation, depth: nat)
    requires a.Container? && a.kind == TupleOf && !Variadic(a.args)
    ensures AnsweredBelow(schema, a, depth) <==> forall i :: 0 <= i < |a.args| ==> AnsweredBelow(schema, a.args[i], depth)
  {
    hide Answers;
    if AnsweredBelow(schema, a, depth) {
      forall i | 0 <= i < |a.args| ensures AnsweredBelow(schema, a.args[i], depth) {
        assert forall m :: Demands(a.args[i], m) ==> Demands(a, m);
      }
    } else {
      var m :| Demands(a, m) && !(depth > 0 && Answers(schema, m, depth - 1));
      var i :| 0 <= i < |a.args| && Demands(a.args[i], m);
      assert !AnsweredBelow(schema, a.args[i], depth);
    }
  }

  lemma NestedExactly(schema: Schema, m: ModelId, conviction: bool, depth: nat)
    ensures NeutralFor(schema, Nested(m), conviction, depth).Success? <==> AnsweredBelow(schema, Nested(m), depth)
  {
    assert Demands(Nested(m), m);
  }

  lemma {:induction false} SlotsExactly(schema: Schema, args: seq<Annotation>, conviction: bool, depth: nat)
    ensures NeutralSlots(schema, args, conviction, depth).Success?
            <==> forall i :: 0 <= i < |args| ==> Neutral(args[i], conviction) && AnsweredBelow(schema, args[i], depth)
    decreases args
  {
    hide Neutral, AnsweredBelow;
    if args != [] {
      ForExactly(schema, args[0], conviction, depth);
      SlotsExactly(schema, args[1..], conviction, depth);
      assert forall i :: 0 < i < |args| ==> args[i] == args[1..][i - 1];
      assert forall i :: 0 <= i < |args[1..]| ==> args[1..][i] == args[i + 1];
    }
  }

  lemma {:induction false} PayloadExactly(schema: Schema, fields: seq<Field>, depth: nat)
    ensures NeutralPayload(schema, fields, depth).Success?
            <==> forall f :: f in fields && f.required ==> Neutral(f.annotation, f.marked) && AnsweredBelow(schema, f.annotation, depth)
    decreases |fields|
  {
    hide Neutral, AnsweredBelow;
    if fields != [] {
      var front, f := fields[..|fields| - 1], fields[|fields| - 1];
      PayloadExactly(schema, front, depth);
      ForExactly(schema, f.annotation, f.marked, depth);
      assert forall g :: g in fields <==> g in front || g == f by { assert fields == front + [f]; }
    }
  }

  lemma ModelExactly(schema: Schema, m: ModelId, depth: nat)
    ensures Answers(schema, m, depth)
            <==> NeutralModel(schema, m) && forall n :: Requires(schema, m, n) ==> depth > 0 && Answers(schema, n, depth - 1)
  {
    PayloadExactly(schema, FieldsOf(schema, m), depth);
    hide Answers, Demands, Neutral, NeutralPayload;
    if forall f :: f in FieldsOf(schema, m) && f.required ==> AnsweredBelow(schema, f.annotation, depth) {
      forall n | Requires(schema, m, n) ensures depth > 0 && Answers(schema, n, depth - 1) {
        var f :| f in FieldsOf(schema, m) && f.required && Demands(f.annotation, n);
        assert AnsweredBelow(schema, f.annotation, depth);
      }
    }
    if forall n :: Requires(schema, m, n) ==> depth > 0 && Answers(schema, n, depth - 1) {
      forall f | f in FieldsOf(schema, m) && f.required ensures AnsweredBelow(schema, f.annotation, depth) {
        forall n | Demands(f.annotation, n) ensures depth > 0 && Answers(schema, n, depth - 1) { assert Requires(schema, m, n); }
      }
    }
    assert Answers(schema, m, depth) == NeutralPayload(schema, FieldsOf(schema, m), depth).Success? by { Answering(schema, m, depth); }
  }

  lemma Answering(schema: Schema, m: ModelId, depth: nat)
    ensures Answers(schema, m, depth) == NeutralPayload(schema, FieldsOf(schema, m), depth).Success?
  {
  }

  /** Every model demanded from `root`, directly or not, has neutral answers of its own. */
  ghost predicate NeutralThroughout(schema: Schema, root: ModelId) {
    forall n :: Leads(Requiring(schema), root, n) ==> NeutralModel(schema, n)
  }

  lemma NeutralBelow(schema: Schema, m: ModelId, n: ModelId)
    requires NeutralThroughout(schema, m) && Requires(schema, m, n)
    ensures NeutralThroughout(schema, n)
  {
    hide NeutralModel, Requires;
    forall k | Leads(Requiring(schema), n, k) ensures NeutralModel(schema, k) { LeadsOn(Requiring(schema), m, n, k); }
  }

  lemma NeutralAbove(schema: Schema, m: ModelId)
    requires NeutralModel(schema, m) && forall n :: Requires(schema, m, n) ==> NeutralThroughout(schema, n)
    ensures NeutralThroughout(schema, m)
  {
    hide NeutralModel, Requires;
    forall k | Leads(Requiring(schema), m, k) ensures NeutralModel(schema, k) { LeadsFirst(Requiring(schema), m, k); }
  }

  /** What it takes to answer with so much stack: neutral answers throughout, and required
      references nested no deeper. */
  lemma {:induction false} AnswersAtDepth(schema: Schema, m: ModelId, depth: nat)
    ensures Answers(schema, m, depth) <==> NeutralThroughout(schema, m) && Ends(Requiring(schema), m, depth)
    decreases depth
  {
    hide Answers, NeutralModel, Requires, NeutralThroughout;
    ModelExactly(schema, m, depth);
    EndsModel(schema, m, depth);
    forall n | Requires(schema, m, n) && depth > 0
      ensures Answers(schema, n, depth - 1) <==> NeutralThroughout(schema, n) && Ends(Requiring(schema), n, depth - 1)
    {
      AnswersAtDepth(schema, n, depth - 1);
    }
    if NeutralThroughout(schema, m) {
      NeutralHere(schema, m);
      forall n | Requires(schema, m, n) ensures NeutralThroughout(schema, n) { NeutralBelow(schema, m, n); }
    }
    if Answers(schema, m, depth) { NeutralAbove(schema, m); }
  }

  lemma NeutralHere(schema: Schema, m: ModelId)
    requires NeutralThroughout(schema, m)
    ensures NeutralModel(schema, m)
  {
    LeadsToItself(Requiring(schema), m);
  }

  /** Whether the generator can answer at all: some stack is deep enough if and only if
      every model demanded from the root has neutral answers of its own and none of them
      comes to require itself; and then as many levels as there are models will do. */
  lemma AnswersExactly(schema: Schema, root: ModelId)
    ensures (exists depth: nat :: Answers(schema, root, depth))
            <==> NeutralThroughout(schema, root) && NeverComesBack(Requiring(schema), root)
    ensures (exists depth: nat :: Answers(schema, root, depth)) <==> Answers(schema, root, |schema|)
  {
    hide Answers, NeutralThroughout, NeverComesBack, Ends, Requires;
    RequiresEnds(schema, root);
    AnswersAtDepth(schema, root, |schema|);
    forall depth: nat | Answers(schema, root, depth) ensures Answers(schema, root, |schema|) {
      AnswersAtDepth(schema, root, depth);
    }
  }

  lemma RequiresEnds(schema: Schema, m: ModelId)
    ensures NeverComesBack(Requiring(schema), m) <==> Ends(Requiring(schema), m, |schema|)
    ensures (exists d: nat :: Ends(Requiring(schema), m, d)) <==> Ends(Requiring(schema), m, |schema|)
  {
    hide NeverComesBack, Ends;
    assert |schema.Keys| == |schema|;
    EndsExactly(Requiring(schema), schema.Keys, m);
  }

  // ----- stack alone

  ghost predicate EndsBelow(schema: Schema, a: Annotation, depth: nat) {
    forall m :: Demands(a, m) ==> depth > 0 && Ends(Requiring(schema), m, depth - 1)
  }

  lemma {:induction false} NoLimitFor(schema: Schema, a: Annotation, conviction: bool, depth: nat)
    requires EndsBelow(schema, a, depth)
    ensures NeutralFor(schema, a, conviction, depth) != Failure(RecursionLimit)
    decreases depth, 1, a
  {
    hide Ends;
    match a
    case Annotated(inner, marked) =>
      assert forall m :: Demands(inner, m) ==> Demands(a, m);
      NoLimitFor(schema, inner, conviction || marked, depth);
    case UnionOf(args) =>
      if NoneType !in args && args != [] {
        assert forall m :: Demands(args[0], m) ==> Demands(a, m);
        NoLimitFor(schema, args[0], conviction, depth);
      }
    case Container(kind, args) =>
      if kind == TupleOf && !Variadic(args) {
        forall i | 0 <= i < |args| ensures EndsBelow(schema, args[i], depth) {
          assert forall m :: Demands(args[i], m) ==> Demands(a, m);
        }
        NoLimitSlots(schema, args, conviction, depth);
      }
    case Nested(m) =>
      assert Demands(a, m);
      NoLimitPayload(schema, m, FieldsOf(schema, m), depth - 1);
    case _ =>
  }

  lemma {:induction false} NoLimitSlots(schema: Schema, args: seq<Annotation>, conviction: bool, depth: nat)
    requires forall i :: 0 <= i < |args| ==> EndsBelow(schema, args[i], depth)
    ensures NeutralSlots(schema, args, conviction, depth) != Failure(RecursionLimit)
    decreases depth, 1, args
  {
    hide EndsBelow;
    if args != [] {
      NoLimitFor(schema, args[0], conviction, depth);
      forall i | 0 <= i < |args[1..]| ensures EndsBelow(schema, args[1..][i], depth) { assert args[1..][i] == args[i + 1]; }
      NoLimitSlots(schema, args[1..], conviction, depth);
    }
  }

  lemma {:induction false} NoLimitPayload(schema: Schema, m: ModelId, fields: seq<Field>, depth: nat)
    requires Ends(Requiring(schema), m, depth)
    requires forall f :: f in fields ==> f in FieldsOf(schema, m)
    ensures NeutralPayload(schema, fields, depth) != Failure(RecursionLimit)
    decreases depth, 2, |fields|
  {
    hide EndsBelow, Ends;
    if fields != [] {
      var front, f := fields[..|fields| - 1], fields[|fields| - 1];
      assert f in fields && forall g :: g in front ==> g in fields;
      NoLimitPayload(schema, m, front, depth);
      if f.required {
        FieldEnds(schema, m, f, depth);
        NoLimitFor(schema, f.annotation, f.marked, depth);
      }
    }
  }

  lemma EndsModel(schema: Schema, m: ModelId, d: nat)
    ensures Ends(Requiring(schema), m, d) <==> forall n :: Requires(schema, m, n) ==> d > 0 && Ends(Requiring(schema), n, d - 1)
  {
    hide Requires;
    assert forall n :: Requiring(schema)(m, n) == Requires(schema, m, n);
  }

  lemma FieldEnds(schema: Schema, m: ModelId, f: Field, depth: nat)
    requires Ends(Requiring(schema), m, depth) && f in FieldsOf(schema, m) && f.required
    ensures EndsBelow(schema, f.annotation, depth)
  {
    hide Demands;
    EndsModel(schema, m, depth);
    forall n | Demands(f.annotation, n) ensures depth > 0 && Ends(Requiring(schema), n, depth - 1) { assert Requires(schema, m, n); }
  }

  /** Where no demanded model comes to require itself, the generator never runs out of stack
      on a model the guard accepts: it returns a fitting neutral value, or says which enum
      or annotation has no neutral answer. */
  lemma WellFoundedSchemasAnswer(schema: Schema, root: ModelId, depth: nat)
    requires NeverComesBack(Requiring(schema), root) && NumberFree(schema, root) && |schema| <= depth
    ensures var r := NeutralPayload(schema, FieldsOf(schema, root), depth);
      || (r.Success? && FitsModel(schema, r.value, FieldsOf(schema, root)) && AllNeutral(r.value))
      || r == Failure(NoNeutralMember) || r == Failure(NoNeutralValue)
  {
    hide Ends, NumberFree, FitsModel, AllNeutral;
    RequiresEnds(schema, root);
    EndsSooner(Requiring(schema), root, |schema|, depth);
    NoLimitPayload(schema, root, FieldsOf(schema, root), depth);
    GuardAndGeneratorAgree(schema, root, depth);
    var r := NeutralPayload(schema, FieldsOf(schema, root), depth);
    if r.Failure? {
      assert r == Failure(r.error);
      assert r.error == NoNeutralMember || r.error == NoNeutralValue;
    }
  }

  // ----- values of any kind

  /** Every model demanded by `a` ends, and is properly declared all the way. */
  ghost predicate Buildable(schema: Schema, a: Annotation, bound: nat) {
    Proper(a) && forall m :: Demands(a, m) ==> bound > 0 && BuildableModel(schema, m, bound - 1)
  }

  ghost predicate BuildableModel(schema: Schema, m: ModelId, bound: nat) {
    Ends(Requiring(schema), m, bound) && forall n :: Leads(Requiring(schema), m, n) ==> ProperModel(schema, n)
  }

  lemma BuildableField(schema: Schema, m: ModelId, f: Field, bound: nat)
    requires BuildableModel(schema, m, bound) && f in FieldsOf(schema, m) && f.required
    ensures Buildable(schema, f.annotation, bound)
  {
    hide Ends, Demands, Leads;
    FieldEnds(schema, m, f, bound);
    LeadsToItself(Requiring(schema), m);
    assert ProperModel(schema, m);
    forall n | Demands(f.annotation, n) ensures bound > 0 && BuildableModel(schema, n, bound - 1) {
      assert Requires(schema, m, n);
      forall k | Leads(Requiring(schema), n, k) ensures ProperModel(schema, k) { LeadsOn(Requiring(schema), m, n, k); }
    }
  }

  lemma {:induction false} BuildValue(schema: Schema, a: Annotation, ok: bool, bound: nat) returns (v: Value)
    requires Buildable(schema, a, bound)
    ensures Inhabits(schema, v, a, ok)
    decreases bound, 1, a, 0
  {
    hide BuildableModel;
    match a
    case NoneType => v := NoneValue;
    case Annotated(inner, marked) =>
      assert forall m :: Demands(inner, m) ==> Demands(a, m);
      v := BuildValue(schema, inner, ok || marked, bound);
    case UnionOf(args) =>
      if NoneType in args {
        var i :| 0 <= i < |args| && args[i] == NoneType;
        v := NoneValue;
        assert Inhabits(schema, v, args[i], ok);
      } else {
        assert forall m :: Demands(args[0], m) ==> Demands(a, m);
        v := BuildValue(schema, args[0], ok, bound);
        assert Inhabits(schema, v, args[0], ok);
      }
    case Container(kind, args) =>
      if kind == DictOf { v := Entries([]); }
      else if kind != TupleOf { v := Items([]); }
      else if args == [] || Variadic(args) { v := Slots([]); }
      else {
        forall i | 0 <= i < |args| ensures Buildable(schema, args[i], bound) {
          assert forall m :: Demands(args[i], m) ==> Demands(a, m);
        }
        var vs := BuildSlots(schema, args, ok, bound);
        v := Slots(vs);
      }
    case EmptyTuple => v := Slots([]);
    case Dots => v := OpaqueValue;
    case Nested(m) =>
      assert Demands(a, m);
      v := BuildModel(schema, m, FieldsOf(schema, m), bound - 1);
    case EnumType(intBased, members) => v := SomeMember(intBased, members, 0);
    case BoolType => v := BoolValue(false);
    case StrType => v := StrValue("");
    case IntType => v := if ok then IntValue(1) else NumberValue;
    case ForbiddenScalar => v := NumberValue;
    case Unseen(_, _) => v := OpaqueValue;
  }

  lemma {:induction false} BuildSlots(schema: Schema, args: seq<Annotation>, ok: bool, bound: nat) returns (vs: seq<Value>)
    requires forall i :: 0 <= i < |args| ==> Buildable(schema, args[i], bound)
    ensures |vs| == |args| && forall i :: 0 <= i < |args| ==> Inhabits(schema, vs[i], args[i], ok)
    decreases bound, 1, args
  {
    hide Inhabits, Buildable;
    if args == [] {
      vs := [];
    } else {
      var v := BuildValue(schema, args[0], ok, bound);
      forall i | 0 <= i < |args[1..]| ensures Buildable(schema, args[1..][i], bound) { assert args[1..][i] == args[i + 1]; }
      var rest := BuildSlots(schema, args[1..], ok, bound);
      vs := [v] + rest;
      forall i | 0 <= i < |args| ensures Inhabits(schema, vs[i], args[i], ok) {
        if i > 0 { assert vs[i] == rest[i - 1] && args[i] == args[1..][i - 1]; }
      }
    }
  }

  lemma {:induction false} BuildModel(schema: Schema, m: ModelId, fields: seq<Field>, bound: nat) returns (v: Value)
    requires BuildableModel(schema, m, bound)
    requires forall f :: f in fields ==> f in FieldsOf(schema, m)
    ensures v.Payload? && FitsModel(schema, v, fields)
    decreases bound, 2, |fields|
  {
    hide Buildable, BuildableModel, Inhabits, FitsModel;
    if fields == [] {
      v := Payload([]);
      NothingFits(schema);
    } else {
      var front, f := fields[..|fields| - 1], fields[|fields| - 1];
      assert f in fields && forall g :: g in front ==> g in fields;
      v := BuildModel(schema, m, front, bound);
      if f.required {
        BuildableField(schema, m, f, bound);
        var value := BuildValue(schema, f.annotation, f.marked, bound);
        v := WithField(schema, front, f, v, value);
      } else {
        FieldAdded(schema, front, f, v, v);
      }
      assert fields == front + [f];
    }
  }

  lemma WithField(schema: Schema, front: seq<Field>, f: Field, before: Value, value: Value) returns (after: Value)
    requires before.Payload? && FitsModel(schema, before, front)
    requires f.required && Inhabits(schema, value, f.annotation, f.marked)
    ensures after.Payload? && FitsModel(schema, after, front + [f])
  {
    hide Inhabits, FitsModel;
    after := Payload(before.fields + [(f.name, value)]);
    FieldAdded(schema, front, f, before, after);
  }

  lemma NothingFits(schema: Schema)
    ensures FitsModel(schema, Payload([]), [])
  {
  }

  /** A properly declared schema in which nothing comes to require itself has a value for
      every model. */
  lemma WellFoundedIsAnswerable(schema: Schema, root: ModelId)
    requires forall m :: Leads(Linking(schema), root, m) ==> ProperModel(schema, m) && !ComesBack(Requiring(schema), m)
    ensures Answerable(schema, root)
  {
    hide Leads, ComesBack, Links, Demands;
    forall m | Leads(Linking(schema), root, m) ensures HasValue(schema, m) {
      forall n | Leads(Requiring(schema), m, n) ensures Leads(Linking(schema), root, n) { RequiredIsLinked(schema, root, m, n); }
      RequiresEnds(schema, m);
      var v := BuildModel(schema, m, FieldsOf(schema, m), |schema|);
    }
  }

  lemma RequiredIsLinked(schema: Schema, root: ModelId, m: ModelId, n: ModelId)
    requires Leads(Linking(schema), root, m) && Leads(Requiring(schema), m, n)
    ensures Leads(Linking(schema), root, n)
  {
    hide Links, Demands;
    var chain :| IsChain(Requiring(schema), chain) && chain[0] == m && chain[|chain| - 1] == n;
    forall k, l | Leads(Linking(schema), root, k) && Requires(schema, k, l) ensures Leads(Linking(schema), root, l) {
      var f :| f in FieldsOf(schema, k) && f.required && Demands(f.annotation, l);
      DemandsLinks(f.annotation, l);
      assert LinksTo(schema, k, l);
      LeadsThenOn(Linking(schema), root, k, l);
    }
    hide Requires, Leads;
    KeptAlong(Requiring(schema), k => Leads(Linking(schema), root, k), chain);
  }

  lemma {:induction false} DemandsLinks(a: Annotation, m: ModelId)
    requires Demands(a, m)
    ensures Links(a, m)
  {
    match a
    case Annotated(inner, _) => DemandsLinks(inner, m);
    case UnionOf(args) => DemandsLinks(args[0], m);
    case Container(_, args) =>
      var i :| 0 <= i < |args| && Demands(args[i], m);
      DemandsLinks(args[i], m);
    case _ =>
  }

  /** Without it there is a model the guard accepts that no stack is deep enough for: one
      that requires itself. */
  lemma {:induction false} SelfRequiringModelNeverAnswers(depth: nat)
    ensures NumberFree(SELF, "Node") && NeutralPayload(SELF, FieldsOf(SELF, "Node"), depth) == Failure(RecursionLimit)
  {
    forall n ensures Clean(SELF, n) { SelfIsClean(n); }
    if depth > 0 { SelfRequiringModelNeverAnswers(depth - 1); }
    hide NumberFree, Clean;
    SelfStep(depth);
  }

  const SELF: Schema := map["Node" := [Field("next", Nested("Node"), false, true)]]

  lemma SelfIsClean(n: ModelId)
    ensures Clean(SELF, n)
  {
  }

  lemma SelfStep(depth: nat)
    requires depth > 0 ==> NeutralPayload(SELF, FieldsOf(SELF, "Node"), depth - 1) == Failure(RecursionLimit)
    ensures NeutralPayload(SELF, FieldsOf(SELF, "Node"), depth) == Failure(RecursionLimit)
  {
    var fields := FieldsOf(SELF, "Node");
    assert fields[..0] == [];
    assert NeutralFor(SELF, fields[0].annotation, false, depth) == Failure(RecursionLimit);
  }
}
