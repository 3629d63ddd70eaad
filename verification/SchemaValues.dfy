/** The values a schema admits, and when a model the guard accepts admits no number. */
module SchemaValues {
  import opened Chains
  import opened Schemas

  /** What a response can hold. IntValue is a conviction, NumberValue any other number; a
      member records its name and whether it is a number; a payload holds the fields that
      were given a value. OpaqueValue stands for whatever else an annotation the guard does
      not look into may allow. A bool is not counted as a number. */
  datatype Value =
    | NoneValue
    | BoolValue(b: bool)
    | StrValue(s: string)
    | IntValue(n: int)
    | NumberValue
    | OpaqueValue
    | Member(name: string, numeric: bool)
    | Items(vs: seq<Value>)
    | Slots(vs: seq<Value>)
    | Entries(pairs: seq<(Value, Value)>)
    | Payload(fields: seq<(string, Value)>)

  predicate HoldsNumber(v: Value)
    decreases v
  {
    match v
    case NumberValue => true
    case Member(_, numeric) => numeric
    case Items(vs) => exists i :: 0 <= i < |vs| && HoldsNumber(vs[i])
    case Slots(vs) => exists i :: 0 <= i < |vs| && HoldsNumber(vs[i])
    case Entries(pairs) => exists i :: 0 <= i < |pairs| && (HoldsNumber(pairs[i].0) || HoldsNumber(pairs[i].1))
    case Payload(fields) => exists i :: 0 <= i < |fields| && HoldsNumber(fields[i].1)
    case _ => false
  }

  /** `v` is a value of annotation `a`; under the conviction mark an integer is 1 to 5. */
  predicate Inhabits(schema: Schema, v: Value, a: Annotation, conviction: bool)
    decreases v, 1, a
  {
    match a
    case NoneType => v == NoneValue
    case Annotated(inner, marked) => Inhabits(schema, v, inner, conviction || marked)
    case UnionOf(args) => exists i :: 0 <= i < |args| && Inhabits(schema, v, args[i], conviction)
    case Container(kind, args) =>
      if args == [] then
        OfKind(kind, v)
      else if kind == DictOf then
        v.Entries? && forall i :: 0 <= i < |v.pairs| ==>
          if |args| == 2
          then Inhabits(schema, v.pairs[i].0, args[0], conviction) && Inhabits(schema, v.pairs[i].1, args[1], conviction)
          else InhabitsOne(schema, v.pairs[i].0, args, conviction) && InhabitsOne(schema, v.pairs[i].1, args, conviction)
      else if kind != TupleOf then
        v.Items? && forall i :: 0 <= i < |v.vs| ==> InhabitsOne(schema, v.vs[i], args, conviction)
      else if Variadic(args) then
        v.Slots? && forall i :: 0 <= i < |v.vs| ==> Inhabits(schema, v.vs[i], args[0], conviction)
      else
        v.Slots? && |v.vs| == |args| && forall i :: 0 <= i < |v.vs| ==> Inhabits(schema, v.vs[i], args[i], conviction)
    case EmptyTuple => v == Slots([])
    case Dots => v == OpaqueValue
    case Nested(m) => v.Payload? && FitsModel(schema, v, FieldsOf(schema, m))
    case EnumType(intBased, members) => v.Member? && IsMember(v.name, v.numeric, intBased, members)
    case BoolType => v.BoolValue?
    case StrType => v.StrValue?
    case IntType => if conviction then v.IntValue? && 1 <= v.n <= 5 else v == NumberValue
    case ForbiddenScalar => v == NumberValue
    case Unseen(numeric, args) =>
      || v == OpaqueValue
      || (numeric && v == NumberValue)
      || (v.Items? && forall i :: 0 <= i < |v.vs| ==> InhabitsOne(schema, v.vs[i], args, conviction))
  }

  predicate InhabitsOne(schema: Schema, v: Value, args: seq<Annotation>, conviction: bool)
    decreases v, 1, args
  {
    exists i :: 0 <= i < |args| && Inhabits(schema, v, args[i], conviction)
  }

  /** Without arguments a container holds anything of its kind. */
  predicate OfKind(kind: Kind, v: Value) {
    match kind
    case DictOf => v.Entries?
    case TupleOf => v.Slots?
    case _ => v.Items?
  }

  predicate IsMember(name: string, numeric: bool, intBased: bool, members: seq<EnumMember>) {
    exists i :: 0 <= i < |members| && members[i].name == name && numeric == (intBased || members[i].numeric)
  }

  predicate Variadic(args: seq<Annotation>) {
    |args| == 2 && args[1] == Dots
  }

  /** Every required field is given, and every given field has a value of its annotation. */
  predicate FitsModel(schema: Schema, v: Value, fields: seq<Field>)
    requires v.Payload?
    decreases v, 0
  {
    && (forall f :: f in fields && f.required ==> exists i :: 0 <= i < |v.fields| && v.fields[i].0 == f.name)
    && (forall i :: 0 <= i < |v.fields| ==>
          exists f :: f in fields && f.name == v.fields[i].0 && Inhabits(schema, v.fields[i].1, f.annotation, f.marked))
  }

  // ----- looking everywhere

  function ArgsOf(a: Annotation): seq<Annotation> {
    match a
    case UnionOf(args) => args
    case Container(_, args) => args
    case Unseen(_, args) => args
    case _ => []
  }

  predicate SomeNumeric(members: seq<EnumMember>) {
    exists i :: 0 <= i < |members| && members[i].numeric
  }

  /** A number can be written in this annotation itself, whatever generic it stands in, not
      counting nested models. */
  predicate Writes(a: Annotation, ok: bool) {
    match a
    case Annotated(inner, marked) => Writes(inner, ok || marked)
    case UnionOf(args) => exists i :: 0 <= i < |args| && Writes(args[i], ok)
    case Container(_, args) => args == [] || exists i :: 0 <= i < |args| && Writes(args[i], ok)
    case Unseen(numeric, args) => numeric || exists i :: 0 <= i < |args| && Writes(args[i], ok)
    case EnumType(intBased, members) => members != [] && (intBased || SomeNumeric(members))
    case ForbiddenScalar => true
    case IntType => !ok
    case _ => false
  }

  /** The annotation refers to model `m`, whatever generic the reference stands in. */
  predicate Links(a: Annotation, m: ModelId) {
    match a
    case Annotated(inner, _) => Links(inner, m)
    case UnionOf(args) => exists i :: 0 <= i < |args| && Links(args[i], m)
    case Container(_, args) => exists i :: 0 <= i < |args| && Links(args[i], m)
    case Unseen(_, args) => exists i :: 0 <= i < |args| && Links(args[i], m)
    case Nested(n) => n == m
    case _ => false
  }

  predicate LinksTo(schema: Schema, m: ModelId, n: ModelId) {
    exists f :: f in FieldsOf(schema, m) && Links(f.annotation, n)
  }

  function Linking(schema: Schema): Step {
    (m, n) => LinksTo(schema, m, n)
  }

  predicate ModelWrites(schema: Schema, m: ModelId) {
    exists f :: f in FieldsOf(schema, m) && Writes(f.annotation, f.marked)
  }

  /** However one looks, no number can be written in `m` or any model it leads to. */
  ghost predicate Silent(schema: Schema, m: ModelId) {
    forall n :: Leads(Linking(schema), m, n) ==> !ModelWrites(schema, n)
  }

  ghost predicate SilentPart(schema: Schema, a: Annotation, ok: bool) {
    !Writes(a, ok) && forall m :: Links(a, m) ==> Silent(schema, m)
  }

  /** Some value of the annotation holds a number. */
  ghost predicate CanHold(schema: Schema, a: Annotation, ok: bool) {
    exists v :: Inhabits(schema, v, a, ok) && HoldsNumber(v)
  }

  ghost predicate ModelCanHold(schema: Schema, m: ModelId) {
    exists v: Value :: v.Payload? && FitsModel(schema, v, FieldsOf(schema, m)) && HoldsNumber(v)
  }

  lemma SilentStep(schema: Schema, m: ModelId, n: ModelId)
    requires Silent(schema, m) && LinksTo(schema, m, n)
    ensures Silent(schema, n)
  {
    forall k | Leads(Linking(schema), n, k) ensures !ModelWrites(schema, k) { LeadsOn(Linking(schema), m, n, k); }
  }

  // ----- nothing can be written, no number

  lemma SilentField(schema: Schema, m: ModelId, f: Field)
    requires Silent(schema, m) && f in FieldsOf(schema, m)
    ensures SilentPart(schema, f.annotation, f.marked)
  {
    LeadsToItself(Linking(schema), m);
    hide Leads;
    assert !ModelWrites(schema, m);
    forall n | Links(f.annotation, n) ensures Silent(schema, n) {
      assert LinksTo(schema, m, n);
      SilentStep(schema, m, n);
    }
  }

  lemma SilentArgument(schema: Schema, a: Annotation, i: nat, ok: bool)
    requires i < |ArgsOf(a)| && SilentPart(schema, a, ok)
    ensures SilentPart(schema, ArgsOf(a)[i], ok)
  {
    hide Silent;
    forall m | Links(ArgsOf(a)[i], m) ensures Links(a, m) {}
  }

  lemma {:induction false} ArgumentQuiet(schema: Schema, v: Value, a: Annotation, i: nat, ok: bool)
    requires i < |ArgsOf(a)| && Inhabits(schema, v, ArgsOf(a)[i], ok) && SilentPart(schema, a, ok)
    ensures !HoldsNumber(v)
    decreases v, 1, ArgsOf(a)[i], 1
  {
    SilentArgument(schema, a, i, ok);
    Quiet(schema, v, ArgsOf(a)[i], ok);
  }

  lemma {:induction false} OneQuiet(schema: Schema, v: Value, a: Annotation, ok: bool)
    requires InhabitsOne(schema, v, ArgsOf(a), ok) && SilentPart(schema, a, ok)
    ensures !HoldsNumber(v)
    decreases v, 2, a
  {
    var i :| 0 <= i < |ArgsOf(a)| && Inhabits(schema, v, ArgsOf(a)[i], ok);
    ArgumentQuiet(schema, v, a, i, ok);
  }

  /** A value of an annotation in which no number can be written holds none. */
  lemma {:induction false} Quiet(schema: Schema, v: Value, a: Annotation, ok: bool)
    requires Inhabits(schema, v, a, ok) && SilentPart(schema, a, ok)
    ensures !HoldsNumber(v)
    decreases v, 1, a, 0
  {
    hide SilentPart;
    match a
    case Annotated(inner, marked) =>
      SilentInner(schema, a, ok);
      Quiet(schema, v, inner, ok || marked);
    case UnionOf(args) =>
      var i :| 0 <= i < |args| && Inhabits(schema, v, args[i], ok);
      ArgumentQuiet(schema, v, a, i, ok);
    case Container(kind, args) =>
      NotBare(schema, a, ok);
      ContainerQuiet(schema, v, a, ok);
    case Nested(m) =>
      NestedIsSilent(schema, m, ok);
      ModelQuiet(schema, v, m);
    case Unseen(numeric, args) =>
      UnseenQuiet(schema, v, a, ok);
    case _ =>
      LeafQuiet(schema, v, a, ok);
  }

  lemma SilentInner(schema: Schema, a: Annotation, ok: bool)
    requires a.Annotated? && SilentPart(schema, a, ok)
    ensures SilentPart(schema, a.inner, ok || a.marked)
  {
    hide Silent;
    forall m | Links(a.inner, m) ensures Links(a, m) {}
  }

  lemma NotBare(schema: Schema, a: Annotation, ok: bool)
    requires SilentPart(schema, a, ok)
    ensures a.Container? ==> a.args != []
    ensures a.Unseen? ==> !a.numeric
  {
  }

  lemma NestedIsSilent(schema: Schema, m: ModelId, ok: bool)
    requires SilentPart(schema, Nested(m), ok)
    ensures Silent(schema, m)
  {
    assert Links(Nested(m), m);
  }

  lemma {:induction false} UnseenQuiet(schema: Schema, v: Value, a: Annotation, ok: bool)
    requires a.Unseen? && Inhabits(schema, v, a, ok) && SilentPart(schema, a, ok)
    ensures !HoldsNumber(v)
    decreases v, 0
  {
    hide SilentPart;
    NotBare(schema, a, ok);
    if v.Items? {
      forall i | 0 <= i < |v.vs| ensures !HoldsNumber(v.vs[i]) { OneQuiet(schema, v.vs[i], a, ok); }
    }
  }

  lemma LeafQuiet(schema: Schema, v: Value, a: Annotation, ok: bool)
    requires !a.Annotated? && !a.UnionOf? && !a.Container? && !a.Nested? && !a.Unseen?
    requires Inhabits(schema, v, a, ok) && SilentPart(schema, a, ok)
    ensures !HoldsNumber(v)
  {
  }

  lemma {:induction false} ContainerQuiet(schema: Schema, v: Value, a: Annotation, ok: bool)
    requires a.Container? && a.args != [] && Inhabits(schema, v, a, ok) && SilentPart(schema, a, ok)
    ensures !HoldsNumber(v)
    decreases v, 0
  {
    hide SilentPart;
    match v
    case Items(vs) =>
      forall i | 0 <= i < |vs| ensures !HoldsNumber(vs[i]) { OneQuiet(schema, vs[i], a, ok); }
    case Slots(vs) =>
      forall i | 0 <= i < |vs| ensures !HoldsNumber(vs[i]) {
        ArgumentQuiet(schema, vs[i], a, if Variadic(a.args) then 0 else i, ok);
      }
    case Entries(pairs) =>
      forall i | 0 <= i < |pairs| ensures !HoldsNumber(pairs[i].0) && !HoldsNumber(pairs[i].1) {
        if |a.args| == 2 {
          ArgumentQuiet(schema, pairs[i].0, a, 0, ok);
          ArgumentQuiet(schema, pairs[i].1, a, 1, ok);
        } else {
          OneQuiet(schema, pairs[i].0, a, ok);
          OneQuiet(schema, pairs[i].1, a, ok);
        }
      }
    case _ =>
  }

  lemma GivenField(schema: Schema, v: Value, fields: seq<Field>, i: nat) returns (f: Field)
    requires v.Payload? && FitsModel(schema, v, fields) && i < |v.fields|
    ensures f in fields && f.name == v.fields[i].0 && Inhabits(schema, v.fields[i].1, f.annotation, f.marked)
  {
    hide Inhabits;
    f :| f in fields && f.name == v.fields[i].0 && Inhabits(schema, v.fields[i].1, f.annotation, f.marked);
  }

  lemma {:induction false} ModelQuiet(schema: Schema, v: Value, m: ModelId)
    requires Silent(schema, m) && v.Payload? && FitsModel(schema, v, FieldsOf(schema, m))
    ensures !HoldsNumber(v)
    decreases v, 0
  {
    hide Silent, SilentPart;
    forall i | 0 <= i < |v.fields| ensures !HoldsNumber(v.fields[i].1) {
      var f := GivenField(schema, v, FieldsOf(schema, m), i);
      SilentField(schema, m, f);
      Quiet(schema, v.fields[i].1, f.annotation, f.marked);
    }
  }

  // ----- a number can be written, a value that holds it

  /** No union without an argument, which Python does not build, and no enum without a
      member, which has no value. */
  predicate Proper(a: Annotation) {
    match a
    case Annotated(inner, _) => Proper(inner)
    case UnionOf(args) => args != [] && forall i :: 0 <= i < |args| ==> Proper(args[i])
    case Container(_, args) => forall i :: 0 <= i < |args| ==> Proper(args[i])
    case Unseen(_, args) => forall i :: 0 <= i < |args| ==> Proper(args[i])
    case EnumType(_, members) => members != []
    case _ => true
  }

  ghost predicate HasValue(schema: Schema, m: ModelId) {
    exists v: Value :: v.Payload? && FitsModel(schema, v, FieldsOf(schema, m))
  }

  predicate ProperModel(schema: Schema, m: ModelId) {
    forall f :: f in FieldsOf(schema, m) ==> Proper(f.annotation)
  }

  /** Every model the root leads to can be answered at all; see
      NullProvider.WellFoundedIsAnswerable. */
  ghost predicate Answerable(schema: Schema, root: ModelId) {
    forall m :: Leads(Linking(schema), root, m) ==> HasValue(schema, m) && ProperModel(schema, m)
  }

  /** Every model the annotation refers to can be answered. */
  ghost predicate AnswerablePart(schema: Schema, a: Annotation) {
    Proper(a) && forall m :: Links(a, m) ==> HasValue(schema, m)
  }

  lemma AnswerableStep(schema: Schema, m: ModelId, n: ModelId)
    requires Answerable(schema, m) && LinksTo(schema, m, n)
    ensures Answerable(schema, n)
  {
    hide HasValue, ProperModel;
    forall k | Leads(Linking(schema), n, k) ensures HasValue(schema, k) && ProperModel(schema, k) { LeadsOn(Linking(schema), m, n, k); }
  }

  lemma AnswerableField(schema: Schema, m: ModelId, f: Field)
    requires Answerable(schema, m) && f in FieldsOf(schema, m)
    ensures HasValue(schema, m) && AnswerablePart(schema, f.annotation)
  {
    hide HasValue, Leads;
    LeadsToItself(Linking(schema), m);
    assert ProperModel(schema, m);
    forall n | Links(f.annotation, n) ensures HasValue(schema, n) {
      assert LinksTo(schema, m, n);
      AnswerableStep(schema, m, n);
      LeadsToItself(Linking(schema), n);
    }
  }

  lemma AnswerableArgument(schema: Schema, a: Annotation, i: nat)
    requires i < |ArgsOf(a)| && AnswerablePart(schema, a)
    ensures AnswerablePart(schema, ArgsOf(a)[i])
  {
    hide HasValue;
    forall m | Links(ArgsOf(a)[i], m) ensures Links(a, m) {}
  }

  lemma AnswerableInner(schema: Schema, a: Annotation)
    requires a.Annotated? && AnswerablePart(schema, a)
    ensures AnswerablePart(schema, a.inner)
  {
    hide HasValue;
    forall m | Links(a.inner, m) ensures Links(a, m) {}
  }

  lemma {:induction false} SomeValue(schema: Schema, a: Annotation, ok: bool) returns (v: Value)
    requires AnswerablePart(schema, a)
    ensures Inhabits(schema, v, a, ok)
    decreases a, 0
  {
    hide HasValue;
    match a
    case NoneType => v := NoneValue;
    case Annotated(inner, marked) =>
      AnswerableInner(schema, a);
      v := SomeValue(schema, inner, ok || marked);
    case UnionOf(args) =>
      AnswerableArgument(schema, a, 0);
      v := SomeValue(schema, args[0], ok);
      assert Inhabits(schema, v, args[0], ok);
    case Container(kind, args) =>
      if kind == DictOf { v := Entries([]); }
      else if kind != TupleOf { v := Items([]); }
      else if args == [] || Variadic(args) { v := Slots([]); }
      else {
        forall i | 0 <= i < |args| ensures AnswerablePart(schema, args[i]) { AnswerableArgument(schema, a, i); }
        var vs := SomeSlots(schema, args, ok);
        v := Slots(vs);
      }
    case EmptyTuple => v := Slots([]);
    case Dots => v := OpaqueValue;
    case Nested(m) =>
      assert Links(a, m);
      v := SomeAnswer(schema, m);
    case EnumType(intBased, members) =>
      v := SomeMember(intBased, members, 0);
    case BoolType => v := BoolValue(false);
    case StrType => v := StrValue("");
    case IntType => v := if ok then IntValue(1) else NumberValue;
    case ForbiddenScalar => v := NumberValue;
    case Unseen(_, _) => v := OpaqueValue;
  }

  lemma SomeMember(intBased: bool, members: seq<EnumMember>, i: nat) returns (v: Value)
    requires i < |members|
    ensures v == Member(members[i].name, intBased || members[i].numeric)
    ensures IsMember(v.name, v.numeric, intBased, members)
  {
    v := Member(members[i].name, intBased || members[i].numeric);
  }

  lemma SomeAnswer(schema: Schema, m: ModelId) returns (v: Value)
    requires HasValue(schema, m)
    ensures v.Payload? && FitsModel(schema, v, FieldsOf(schema, m))
  {
    hide FitsModel;
    v :| v.Payload? && FitsModel(schema, v, FieldsOf(schema, m));
  }

  lemma {:induction false} SomeSlots(schema: Schema, args: seq<Annotation>, ok: bool) returns (vs: seq<Value>)
    requires forall i :: 0 <= i < |args| ==> AnswerablePart(schema, args[i])
    ensures |vs| == |args| && forall i :: 0 <= i < |args| ==> Inhabits(schema, vs[i], args[i], ok)
    decreases args
  {
    hide AnswerablePart, Inhabits;
    if args == [] {
      vs := [];
    } else {
      var v := SomeValue(schema, args[0], ok);
      var rest := SomeSlots(schema, args[1..], ok);
      vs := [v] + rest;
      forall i | 0 <= i < |args| ensures Inhabits(schema, vs[i], args[i], ok) {
        if i > 0 { assert vs[i] == rest[i - 1] && args[i] == args[1..][i - 1]; }
      }
    }
  }

  /** A number can be written here, or in a model referred to here. */
  ghost predicate Sounds(schema: Schema, a: Annotation, ok: bool) {
    Writes(a, ok) || exists m :: Links(a, m) && ModelCanHold(schema, m)
  }

  lemma SoundingArgument(schema: Schema, a: Annotation, ok: bool) returns (i: nat)
    requires Sounds(schema, a, ok) && ArgsOf(a) != [] && !(a.Unseen? && a.numeric)
    ensures i < |ArgsOf(a)| && Sounds(schema, ArgsOf(a)[i], ok)
  {
    hide ModelCanHold;
    if Writes(a, ok) {
      i :| 0 <= i < |ArgsOf(a)| && Writes(ArgsOf(a)[i], ok);
    } else {
      var m :| Links(a, m) && ModelCanHold(schema, m);
      i :| 0 <= i < |ArgsOf(a)| && Links(ArgsOf(a)[i], m);
    }
  }

  /** Then some value holds one. */
  lemma {:induction false} SoundUp(schema: Schema, a: Annotation, ok: bool)
    requires AnswerablePart(schema, a) && Sounds(schema, a, ok)
    ensures CanHold(schema, a, ok)
    decreases a
  {
    hide ModelCanHold, CanHold, AnswerablePart;
    if a.Annotated? {
      AnswerableInner(schema, a);
      SoundUp(schema, a.inner, ok || a.marked);
      AnnotatedHolds(schema, a, ok);
    } else if a.Nested? {
      NestedHolds(schema, a.model, ok);
    } else if a.EnumType? {
      EnumHolds(schema, a.intBased, a.members, ok);
    } else if ArgsOf(a) == [] || (a.Unseen? && a.numeric) {
      LeafHolds(schema, a, ok);
    } else {
      var i := SoundingArgument(schema, a, ok);
      AnswerableArgument(schema, a, i);
      SoundUp(schema, ArgsOf(a)[i], ok);
      ArgumentHolds(schema, a, i, ok);
    }
  }

  lemma EnumHolds(schema: Schema, intBased: bool, members: seq<EnumMember>, ok: bool)
    requires members != [] && (intBased || SomeNumeric(members))
    ensures CanHold(schema, EnumType(intBased, members), ok)
  {
    var i :| 0 <= i < |members| && (intBased || members[i].numeric);
    var v := SomeMember(intBased, members, i);
    assert Inhabits(schema, v, EnumType(intBased, members), ok) && HoldsNumber(v);
  }

  /** What one value of a bare container can be. */
  function BareHolder(kind: Kind): Value {
    match kind
    case DictOf => Entries([(NumberValue, NumberValue)])
    case TupleOf => Slots([NumberValue])
    case _ => Items([NumberValue])
  }

  lemma BareHolds(kind: Kind)
    ensures OfKind(kind, BareHolder(kind)) && HoldsNumber(BareHolder(kind))
  {
    match kind
    case DictOf => assert Entries([(NumberValue, NumberValue)]).pairs[0].0 == NumberValue;
    case TupleOf => assert Slots([NumberValue]).vs[0] == NumberValue;
    case _ => assert Items([NumberValue]).vs[0] == NumberValue;
  }

  lemma LeafHolds(schema: Schema, a: Annotation, ok: bool)
    requires !a.Annotated? && !a.Nested? && !a.EnumType? && Writes(a, ok)
    requires ArgsOf(a) == [] || (a.Unseen? && a.numeric)
    ensures CanHold(schema, a, ok)
  {
    var v := if a.Container? then BareHolder(a.kind) else NumberValue;
    if a.Container? { BareHolds(a.kind); }
    assert Inhabits(schema, v, a, ok) && HoldsNumber(v);
  }

  lemma ArgumentHolds(schema: Schema, a: Annotation, i: nat, ok: bool)
    requires AnswerablePart(schema, a) && i < |ArgsOf(a)| && CanHold(schema, ArgsOf(a)[i], ok)
    ensures CanHold(schema, a, ok)
  {
    hide CanHold, AnswerablePart;
    match a
    case UnionOf(args) => UnionHolds(schema, args, i, ok);
    case Unseen(numeric, args) => UnseenHolds(schema, numeric, args, i, ok);
    case Container(kind, args) =>
      forall j | 0 <= j < |args| ensures AnswerablePart(schema, args[j]) { AnswerableArgument(schema, a, j); }
      ContainerHolds(schema, kind, args, i, ok);
  }

  lemma UnseenHolds(schema: Schema, numeric: bool, args: seq<Annotation>, i: nat, ok: bool)
    requires i < |args| && CanHold(schema, args[i], ok)
    ensures CanHold(schema, Unseen(numeric, args), ok)
  {
    var v :| Inhabits(schema, v, args[i], ok) && HoldsNumber(v);
    assert InhabitsOne(schema, v, args, ok);
    assert Items([v]).vs[0] == v;
    assert Inhabits(schema, Items([v]), Unseen(numeric, args), ok);
  }

  lemma AnnotatedHolds(schema: Schema, a: Annotation, ok: bool)
    requires a.Annotated? && CanHold(schema, a.inner, ok || a.marked)
    ensures CanHold(schema, a, ok)
  {
    var v :| Inhabits(schema, v, a.inner, ok || a.marked) && HoldsNumber(v);
    assert Inhabits(schema, v, a, ok);
  }

  lemma UnionHolds(schema: Schema, args: seq<Annotation>, i: nat, ok: bool)
    requires i < |args| && CanHold(schema, args[i], ok)
    ensures CanHold(schema, UnionOf(args), ok)
  {
    var v :| Inhabits(schema, v, args[i], ok) && HoldsNumber(v);
    assert Inhabits(schema, v, UnionOf(args), ok);
  }

  lemma ContainerHolds(schema: Schema, kind: Kind, args: seq<Annotation>, i: nat, ok: bool)
    requires forall j :: 0 <= j < |args| ==> AnswerablePart(schema, args[j])
    requires i < |args| && CanHold(schema, args[i], ok)
    ensures CanHold(schema, Container(kind, args), ok)
  {
    hide AnswerablePart, Inhabits, HoldsNumber;
    var v :| Inhabits(schema, v, args[i], ok) && HoldsNumber(v);
    if kind == DictOf {
      EntryHolds(schema, args, i, v, ok);
    } else if kind != TupleOf {
      ItemHolds(schema, kind, args, i, v, ok);
    } else {
      SlotHolds(schema, args, i, v, ok);
    }
  }

  lemma EntryHolds(schema: Schema, args: seq<Annotation>, i: nat, v: Value, ok: bool)
    requires forall j :: 0 <= j < |args| ==> AnswerablePart(schema, args[j])
    requires i < |args| && Inhabits(schema, v, args[i], ok) && HoldsNumber(v)
    ensures CanHold(schema, Container(DictOf, args), ok)
  {
    hide AnswerablePart;
    var pair := (v, v);
    if |args| == 2 {
      var other := SomeValue(schema, args[1 - i], ok);
      pair := if i == 0 then (v, other) else (other, v);
    } else {
      assert InhabitsOne(schema, v, args, ok);
    }
    assert Entries([pair]).pairs[0] == pair;
    ListedOne(schema, DictOf, args, Entries([pair]), ok);
  }

  lemma ItemHolds(schema: Schema, kind: Kind, args: seq<Annotation>, i: nat, v: Value, ok: bool)
    requires kind != DictOf && kind != TupleOf
    requires i < |args| && Inhabits(schema, v, args[i], ok) && HoldsNumber(v)
    ensures CanHold(schema, Container(kind, args), ok)
  {
    assert InhabitsOne(schema, v, args, ok);
    assert Items([v]).vs[0] == v;
    ListedOne(schema, kind, args, Items([v]), ok);
  }

  lemma SlotHolds(schema: Schema, args: seq<Annotation>, i: nat, v: Value, ok: bool)
    requires forall j :: 0 <= j < |args| ==> AnswerablePart(schema, args[j])
    requires i < |args| && Inhabits(schema, v, args[i], ok) && HoldsNumber(v)
    ensures CanHold(schema, Container(TupleOf, args), ok)
  {
    hide AnswerablePart;
    if Variadic(args) {
      assert Slots([v]).vs[0] == v;
      ListedOne(schema, TupleOf, args, Slots([v]), ok);
    } else {
      var vs := SomeSlots(schema, args, ok);
      var all := Slots(vs[i := v]);
      assert all.vs[i] == v;
      ListedOne(schema, TupleOf, args, all, ok);
    }
  }

  lemma ListedOne(schema: Schema, kind: Kind, args: seq<Annotation>, v: Value, ok: bool)
    requires Inhabits(schema, v, Container(kind, args), ok) && HoldsNumber(v)
    ensures CanHold(schema, Container(kind, args), ok)
  {
  }

  /** A field that can hold a number makes its model hold one: give any answer, and put the
      number in that field. */
  lemma FieldUp(schema: Schema, m: ModelId, f: Field)
    requires HasValue(schema, m) && f in FieldsOf(schema, m) && CanHold(schema, f.annotation, f.marked)
    ensures ModelCanHold(schema, m)
  {
    hide Inhabits, HoldsNumber;
    var u: Value :| u.Payload? && FitsModel(schema, u, FieldsOf(schema, m));
    var v :| Inhabits(schema, v, f.annotation, f.marked) && HoldsNumber(v);
    var at := FieldAt(u.fields, f.name);
    var fields := if at < |u.fields| then u.fields[at := (f.name, v)] else u.fields + [(f.name, v)];
    var w := Payload(fields);
    forall g | g in FieldsOf(schema, m) && g.required ensures exists i :: 0 <= i < |fields| && fields[i].0 == g.name {
      var i :| 0 <= i < |u.fields| && u.fields[i].0 == g.name;
      assert fields[i].0 == g.name;
    }
    forall i | 0 <= i < |fields|
      ensures exists g :: g in FieldsOf(schema, m) && g.name == fields[i].0 && Inhabits(schema, fields[i].1, g.annotation, g.marked)
    {
      if i != at {
        assert fields[i] == u.fields[i];
      } else {
        assert fields[i] == (f.name, v);
      }
    }
    assert fields[at].1 == v;
    PayloadHolds(fields, at);
    assert FitsModel(schema, w, FieldsOf(schema, m));
  }

  lemma PayloadHolds(fields: seq<(string, Value)>, i: nat)
    requires i < |fields| && HoldsNumber(fields[i].1)
    ensures HoldsNumber(Payload(fields))
  {
  }

  lemma FieldAt(fields: seq<(string, Value)>, name: string) returns (at: nat)
    ensures at <= |fields| && (at < |fields| ==> fields[at].0 == name)
  {
    if exists i :: 0 <= i < |fields| && fields[i].0 == name {
      at :| 0 <= at < |fields| && fields[at].0 == name;
    } else {
      at := |fields|;
    }
  }

  lemma NestedHolds(schema: Schema, n: ModelId, ok: bool)
    requires Sounds(schema, Nested(n), ok)
    ensures CanHold(schema, Nested(n), ok)
  {
    hide FitsModel;
    var v: Value :| v.Payload? && FitsModel(schema, v, FieldsOf(schema, n)) && HoldsNumber(v);
    assert Inhabits(schema, v, Nested(n), ok);
  }

  lemma FieldSounds(schema: Schema, m: ModelId, f: Field)
    requires Answerable(schema, m) && f in FieldsOf(schema, m) && Sounds(schema, f.annotation, f.marked)
    ensures ModelCanHold(schema, m)
  {
    hide Answerable, Sounds, AnswerablePart, ModelCanHold, CanHold;
    AnswerableField(schema, m, f);
    SoundUp(schema, f.annotation, f.marked);
    FieldUp(schema, m, f);
  }

  lemma {:induction false} ChainUp(schema: Schema, chain: seq<ModelId>)
    requires IsChain(Linking(schema), chain) && Answerable(schema, chain[0]) && ModelWrites(schema, chain[|chain| - 1])
    ensures ModelCanHold(schema, chain[0])
    decreases |chain|
  {
    hide Answerable, ModelCanHold;
    if |chain| == 1 {
      var f :| f in FieldsOf(schema, chain[0]) && Writes(f.annotation, f.marked);
      FieldSounds(schema, chain[0], f);
    } else {
      var rest := chain[1..];
      assert LinksTo(schema, chain[0], chain[0 + 1]);
      forall i | 0 <= i < |rest| - 1 ensures LinksTo(schema, rest[i], rest[i + 1]) {
        assert LinksTo(schema, chain[i + 1], chain[i + 1 + 1]);
      }
      AnswerableStep(schema, chain[0], chain[1]);
      ChainUp(schema, rest);
      var f :| f in FieldsOf(schema, chain[0]) && Links(f.annotation, chain[1]);
      FieldSounds(schema, chain[0], f);
    }
  }

  /** A model admits a value with a number in it if and only if one can be written somewhere
      in what it leads to, every generic looked into. */
  lemma HoldsNumberExactly(schema: Schema, root: ModelId)
    requires Answerable(schema, root)
    ensures ModelCanHold(schema, root) <==> !Silent(schema, root)
  {
    hide Answerable, ModelCanHold;
    if Silent(schema, root) {
      SilentHoldsNone(schema, root);
    } else {
      var n :| Leads(Linking(schema), root, n) && ModelWrites(schema, n);
      var chain :| IsChain(Linking(schema), chain) && chain[0] == root && chain[|chain| - 1] == n;
      ChainUp(schema, chain);
    }
  }

  /** One direction needs no assumption on the schema. */
  lemma SilentHoldsNone(schema: Schema, root: ModelId)
    requires Silent(schema, root)
    ensures !ModelCanHold(schema, root)
  {
    hide Silent;
    forall v: Value | v.Payload? && FitsModel(schema, v, FieldsOf(schema, root)) ensures !HoldsNumber(v) {
      ModelQuiet(schema, v, root);
    }
  }

  // ----- the guard, value by value

  /** What the guard comes to in this annotation and accepts as it is, though a number can be
      written there: a bare container, an enum with a number among its members, or a
      generic it does not look into with a number somewhere in its arguments. */
  ghost predicate Hides(schema: Schema, a: Annotation, ok: bool) {
    match a
    case Annotated(inner, marked) => Hides(schema, inner, ok || marked)
    case UnionOf(args) => exists i :: 0 <= i < |args| && Hides(schema, args[i], ok)
    case Container(_, args) => args == [] || exists i :: 0 <= i < |args| && Hides(schema, args[i], ok)
    case EnumType(intBased, members) => !intBased && SomeNumeric(members)
    case Unseen(numeric, args) => numeric || exists i :: 0 <= i < |args| && !SilentPart(schema, args[i], ok)
    case _ => false
  }

  ghost predicate FieldHides(schema: Schema, m: ModelId, f: Field) {
    f in FieldsOf(schema, m) && Hides(schema, f.annotation, f.marked)
  }

  /** Nothing of the kind in any model the guard reaches. */
  ghost predicate NothingHidden(schema: Schema, root: ModelId) {
    forall m, f :: Reaches(schema, root, m) ==> !FieldHides(schema, m, f)
  }

  lemma {:induction false} WritesIsBadOrHidden(schema: Schema, a: Annotation, ok: bool)
    requires Writes(a, ok)
    ensures BadLeaf(a, ok) || Hides(schema, a, ok)
  {
    match a
    case Annotated(inner, marked) => WritesIsBadOrHidden(schema, inner, ok || marked);
    case UnionOf(args) =>
      var i :| 0 <= i < |args| && Writes(args[i], ok);
      WritesIsBadOrHidden(schema, args[i], ok);
    case Container(_, args) =>
      if args != [] {
        var i :| 0 <= i < |args| && Writes(args[i], ok);
        WritesIsBadOrHidden(schema, args[i], ok);
      }
    case Unseen(numeric, args) =>
      if !numeric {
        var i :| 0 <= i < |args| && Writes(args[i], ok);
        assert !SilentPart(schema, args[i], ok);
      }
    case _ =>
  }

  lemma {:induction false} LinksIsMentionOrHidden(schema: Schema, a: Annotation, ok: bool, m: ModelId)
    requires Links(a, m) && !Silent(schema, m)
    ensures Mentions(a, m) || Hides(schema, a, ok)
  {
    hide Silent;
    match a
    case Annotated(inner, marked) => LinksIsMentionOrHidden(schema, inner, ok || marked, m);
    case UnionOf(args) =>
      var i :| 0 <= i < |args| && Links(args[i], m);
      LinksIsMentionOrHidden(schema, args[i], ok, m);
    case Container(_, args) =>
      var i :| 0 <= i < |args| && Links(args[i], m);
      LinksIsMentionOrHidden(schema, args[i], ok, m);
    case Unseen(_, args) =>
      var i :| 0 <= i < |args| && Links(args[i], m);
      assert !SilentPart(schema, args[i], ok);
    case _ =>
  }

  lemma {:induction false} HiddenIsNotSilent(schema: Schema, a: Annotation, ok: bool)
    requires Hides(schema, a, ok)
    ensures !SilentPart(schema, a, ok)
  {
    hide SilentPart;
    match a
    case Annotated(inner, marked) =>
      HiddenIsNotSilent(schema, inner, ok || marked);
      if SilentPart(schema, a, ok) { SilentInner(schema, a, ok); }
    case UnionOf(args) =>
      var i :| 0 <= i < |args| && Hides(schema, args[i], ok);
      HiddenIsNotSilent(schema, args[i], ok);
      if SilentPart(schema, a, ok) { SilentArgument(schema, a, i, ok); }
    case Container(_, args) =>
      if SilentPart(schema, a, ok) { NotBare(schema, a, ok); }
      if args != [] {
        var i :| 0 <= i < |args| && Hides(schema, args[i], ok);
        HiddenIsNotSilent(schema, args[i], ok);
        if SilentPart(schema, a, ok) { SilentArgument(schema, a, i, ok); }
      }
    case Unseen(numeric, args) =>
      if SilentPart(schema, a, ok) { NotBare(schema, a, ok); }
      if !numeric {
        var i :| 0 <= i < |args| && !SilentPart(schema, args[i], ok);
        if SilentPart(schema, a, ok) { SilentArgument(schema, a, i, ok); }
      }
    case EnumType(_, _) =>
      assert !SilentPart(schema, a, ok) by { EnumNotSilent(schema, a, ok); }
  }

  lemma EnumNotSilent(schema: Schema, a: Annotation, ok: bool)
    requires a.EnumType? && SomeNumeric(a.members)
    ensures !SilentPart(schema, a, ok)
  {
  }

  lemma {:induction false} MentionsLinks(a: Annotation, m: ModelId)
    requires Mentions(a, m)
    ensures Links(a, m)
  {
    match a
    case Annotated(inner, _) => MentionsLinks(inner, m);
    case UnionOf(args) =>
      var i :| 0 <= i < |args| && args[i] != Dots && Mentions(args[i], m);
      MentionsLinks(args[i], m);
    case Container(_, args) =>
      var i :| 0 <= i < |args| && args[i] != Dots && Mentions(args[i], m);
      MentionsLinks(args[i], m);
    case _ =>
  }

  lemma RefersLinks(schema: Schema, m: ModelId, n: ModelId)
    requires Refers(schema, m, n)
    ensures LinksTo(schema, m, n)
  {
    var f :| f in FieldsOf(schema, m) && Mentions(f.annotation, n);
    MentionsLinks(f.annotation, n);
  }

  lemma HiddenFurtherOn(schema: Schema, m: ModelId, n: ModelId)
    requires Refers(schema, m, n) && !NothingHidden(schema, n)
    ensures !NothingHidden(schema, m)
  {
    hide FieldHides;
    var k, f :| Reaches(schema, n, k) && FieldHides(schema, k, f);
    LeadsOn(Referring(schema), m, n, k);
    assert Reaches(schema, m, k);
  }

  lemma HiddenHere(schema: Schema, m: ModelId, f: Field)
    requires f in FieldsOf(schema, m) && Hides(schema, f.annotation, f.marked)
    ensures !NothingHidden(schema, m)
  {
    hide Hides;
    LeadsToItself(Referring(schema), m);
    assert Reaches(schema, m, m) && FieldHides(schema, m, f);
  }

  /** Where a chain of any references leads from an accepted model to a number, the guard
      came to something on the way and let it pass. */
  lemma {:induction false} HiddenOnTheWay(schema: Schema, chain: seq<ModelId>)
    requires IsChain(Linking(schema), chain) && NumberFree(schema, chain[0]) && ModelWrites(schema, chain[|chain| - 1])
    ensures !NothingHidden(schema, chain[0])
    decreases |chain|
  {
    hide NothingHidden, NumberFree, Hides, Writes, Links, Mentions, BadLeaf;
    if |chain| == 1 {
      var f :| f in FieldsOf(schema, chain[0]) && Writes(f.annotation, f.marked);
      CleanHere(schema, chain[0]);
      WritesIsBadOrHidden(schema, f.annotation, f.marked);
      HiddenHere(schema, chain[0], f);
    } else {
      var rest := chain[1..];
      assert LinksTo(schema, chain[0], chain[0 + 1]);
      forall i | 0 <= i < |rest| - 1 ensures LinksTo(schema, rest[i], rest[i + 1]) {
        assert LinksTo(schema, chain[i + 1], chain[i + 1 + 1]);
      }
      assert !Silent(schema, chain[1]) by { assert Leads(Linking(schema), chain[1], rest[|rest| - 1]); }
      var f :| f in FieldsOf(schema, chain[0]) && Links(f.annotation, chain[1]);
      LinksIsMentionOrHidden(schema, f.annotation, f.marked, chain[1]);
      if Mentions(f.annotation, chain[1]) {
        assert Refers(schema, chain[0], chain[1]);
        NumberFreeStep(schema, chain[0], chain[1]);
        HiddenOnTheWay(schema, rest);
        HiddenFurtherOn(schema, chain[0], chain[1]);
      } else {
        HiddenHere(schema, chain[0], f);
      }
    }
  }

  lemma CleanHere(schema: Schema, m: ModelId)
    requires NumberFree(schema, m)
    ensures Clean(schema, m)
  {
    LeadsToItself(Referring(schema), m);
    assert Reaches(schema, m, m);
  }

  lemma SilentHidesNothing(schema: Schema, root: ModelId)
    requires Silent(schema, root)
    ensures NothingHidden(schema, root)
  {
    hide Silent, Hides, Refers;
    forall m, f | Reaches(schema, root, m) ensures !FieldHides(schema, m, f) {
      var chain :| IsChain(Referring(schema), chain) && chain[0] == root && chain[|chain| - 1] == m;
      forall k, n | Silent(schema, k) && Refers(schema, k, n) ensures Silent(schema, n) {
        RefersLinks(schema, k, n);
        SilentStep(schema, k, n);
      }
      KeptAlong(Referring(schema), k => Silent(schema, k), chain);
      if FieldHides(schema, m, f) {
        SilentField(schema, m, f);
        HiddenIsNotSilent(schema, f.annotation, f.marked);
        assert false;
      }
    }
  }

  /** What acceptance is worth: a model the guard accepts admits no value with a number in it
      if and only if, among all it reaches, the guard comes to no bare container, no enum
      with a number among its members, and no generic it does not look into that a number
      can be written in. */
  lemma AcceptedHoldsNoNumberExactly(schema: Schema, root: ModelId)
    requires NumberFree(schema, root) && Answerable(schema, root)
    ensures !ModelCanHold(schema, root) <==> NothingHidden(schema, root)
  {
    hide NumberFree, Answerable, ModelCanHold, NothingHidden;
    HoldsNumberExactly(schema, root);
    if Silent(schema, root) {
      SilentHidesNothing(schema, root);
    } else {
      SomethingHidden(schema, root);
    }
  }

  lemma SomethingHidden(schema: Schema, root: ModelId)
    requires NumberFree(schema, root) && !Silent(schema, root)
    ensures !NothingHidden(schema, root)
  {
    hide NumberFree, NothingHidden, ModelWrites;
    var n :| Leads(Linking(schema), root, n) && ModelWrites(schema, n);
    var chain :| IsChain(Linking(schema), chain) && chain[0] == root && chain[|chain| - 1] == n;
    HiddenOnTheWay(schema, chain);
  }

  /** One direction needs no assumption on the schema. */
  lemma AcceptedHoldsNoNumber(schema: Schema, root: ModelId)
    requires NumberFree(schema, root) && NothingHidden(schema, root)
    ensures !ModelCanHold(schema, root)
  {
    hide NumberFree, NothingHidden, ModelCanHold, Silent;
    if !Silent(schema, root) { SomethingHidden(schema, root); }
    SilentHoldsNone(schema, root);
  }

  // ----- the guard refuses nothing else

  lemma {:induction false} BadIsWritten(a: Annotation, ok: bool)
    requires BadLeaf(a, ok) && Proper(a)
    ensures Writes(a, ok)
  {
    match a
    case Annotated(inner, marked) => BadIsWritten(inner, ok || marked);
    case UnionOf(args) =>
      var i :| 0 <= i < |args| && args[i] != Dots && BadLeaf(args[i], ok);
      BadIsWritten(args[i], ok);
    case Container(_, args) =>
      var i :| 0 <= i < |args| && args[i] != Dots && BadLeaf(args[i], ok);
      BadIsWritten(args[i], ok);
    case _ =>
  }

  lemma ReachedIsLinked(schema: Schema, root: ModelId, n: ModelId)
    requires Reaches(schema, root, n)
    ensures Leads(Linking(schema), root, n)
  {
    hide Refers, LinksTo, Leads;
    var chain := ReachingChain(schema, root, n);
    LeadsToItself(Linking(schema), root);
    forall k, l | Leads(Linking(schema), root, k) && Refers(schema, k, l) ensures Leads(Linking(schema), root, l) {
      RefersLinks(schema, k, l);
      LeadsThenOn(Linking(schema), root, k, l);
    }
    KeptAlong(Referring(schema), k => Leads(Linking(schema), root, k), chain);
  }

  lemma ReachingChain(schema: Schema, root: ModelId, n: ModelId) returns (chain: seq<ModelId>)
    requires Reaches(schema, root, n)
    ensures IsChain(Referring(schema), chain) && chain[0] == root && chain[|chain| - 1] == n
  {
    hide Refers;
    chain :| IsChain(Referring(schema), chain) && chain[0] == root && chain[|chain| - 1] == n;
  }

  /** The guard refuses a model only if some value of it does hold a number. */
  lemma RefusedHoldsNumber(schema: Schema, root: ModelId)
    requires Answerable(schema, root) && !NumberFree(schema, root)
    ensures ModelCanHold(schema, root)
  {
    hide ModelCanHold, Reaches, HasValue, Writes, BadLeaf, Proper;
    var n :| Reaches(schema, root, n) && !Clean(schema, n);
    ReachedIsLinked(schema, root, n);
    var f :| f in FieldsOf(schema, n) && BadLeaf(f.annotation, f.marked);
    hide Leads;
    assert ProperModel(schema, n);
    BadIsWritten(f.annotation, f.marked);
    assert ModelWrites(schema, n);
    HoldsNumberExactly(schema, root);
  }

  // ----- numbers the guard lets through

  function OneField(a: Annotation): Schema {
    map["View" := [Field("x", a, false, true)]]
  }

  lemma OneFieldPasses(a: Annotation)
    requires !BadLeaf(a, false)
    ensures NumberFree(OneField(a), "View")
  {
    hide Reaches, BadLeaf;
    forall n ensures Clean(OneField(a), n) {
      forall f | f in FieldsOf(OneField(a), n) ensures f == Field("x", a, false, true) {}
    }
  }

  lemma OneFieldHolds(a: Annotation, v: Value)
    requires Inhabits(OneField(a), v, a, false) && HoldsNumber(v)
    ensures ModelCanHold(OneField(a), "View")
  {
    hide Inhabits, HoldsNumber;
    var field := Field("x", a, false, true);
    var payload := Payload([("x", v)]);
    assert FieldsOf(OneField(a), "View") == [field];
    OneFieldFits(OneField(a), payload, field);
    PayloadHolds(payload.fields, 0);
    hide FitsModel;
    assert FitsModel(OneField(a), payload, FieldsOf(OneField(a), "View"));
  }

  lemma OneFieldFits(schema: Schema, v: Value, field: Field)
    requires v.Payload? && |v.fields| == 1 && v.fields[0].0 == field.name
    requires Inhabits(schema, v.fields[0].1, field.annotation, field.marked)
    ensures FitsModel(schema, v, [field])
  {
    hide Inhabits;
    var fields := [field];
    assert field in fields;
    forall i | 0 <= i < |v.fields|
      ensures exists f :: f in fields && f.name == v.fields[i].0 && Inhabits(schema, v.fields[i].1, f.annotation, f.marked)
    {
      assert field in fields && field.name == v.fields[i].0;
    }
  }

  lemma ListHolds()
    ensures HoldsNumber(Items([NumberValue]))
  {
    assert Items([NumberValue]).vs[0] == NumberValue;
  }

  lemma FloatsInhabit(schema: Schema)
    ensures Inhabits(schema, Items([NumberValue]), Unseen(false, [ForbiddenScalar]), false)
  {
    var args := [ForbiddenScalar];
    assert Inhabits(schema, NumberValue, args[0], false);
    assert InhabitsOne(schema, NumberValue, args, false);
  }

  /** `Sequence[float]` passes the guard, and its values are lists of numbers. */
  lemma SequenceOfFloatPasses()
    ensures var schema := OneField(Unseen(false, [ForbiddenScalar])); NumberFree(schema, "View") && ModelCanHold(schema, "View")
  {
    var a := Unseen(false, [ForbiddenScalar]);
    FloatsInhabit(OneField(a));
    ListHolds();
    hide Inhabits, ModelCanHold, NumberFree;
    OneFieldPasses(a);
    OneFieldHolds(a, Items([NumberValue]));
  }

  /** So does an enum of floats, `class Rate(float, Enum)`, or one with floats for values. */
  lemma FloatEnumPasses()
    ensures var schema := OneField(EnumType(false, [EnumMember("UP", true)])); NumberFree(schema, "View") && ModelCanHold(schema, "View")
  {
    var a := EnumType(false, [EnumMember("UP", true)]);
    var v := SomeMember(false, a.members, 0);
    hide ModelCanHold, NumberFree;
    OneFieldPasses(a);
    OneFieldHolds(a, v);
  }

  /** And so does a bare `typing.List`. */
  lemma BareListPasses()
    ensures var schema := OneField(Container(ListOf, [])); NumberFree(schema, "View") && ModelCanHold(schema, "View")
  {
    var a := Container(ListOf, []);
    ListHolds();
    hide ModelCanHold, NumberFree;
    OneFieldPasses(a);
    OneFieldHolds(a, Items([NumberValue]));
  }
}
