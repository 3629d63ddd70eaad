/** Chains of steps from one model to another. */
module Chains {

  type Step = (string, string) -> bool

  ghost predicate IsChain(step: Step, chain: seq<string>) {
    chain != [] && forall i :: 0 <= i < |chain| - 1 ==> step(chain[i], chain[i + 1])
  }

  ghost predicate Leads(step: Step, m: string, n: string) {
    exists chain :: IsChain(step, chain) && chain[0] == m && chain[|chain| - 1] == n
  }

  lemma LeadsToItself(step: Step, m: string)
    ensures Leads(step, m, m)
  {
    assert IsChain(step, [m]);
  }

  lemma ChainOn(step: Step, m: string, chain: seq<string>)
    requires IsChain(step, chain) && step(m, chain[0])
    ensures IsChain(step, [m] + chain)
  {
    var longer := [m] + chain;
    forall i | 0 <= i < |longer| - 1 ensures step(longer[i], longer[i + 1]) {
      if i > 0 { assert longer[i] == chain[i - 1] && longer[i + 1] == chain[i - 1 + 1]; }
    }
  }

  lemma LeadsOn(step: Step, m: string, n: string, k: string)
    requires step(m, n) && Leads(step, n, k)
    ensures Leads(step, m, k)
  {
    var chain :| IsChain(step, chain) && chain[0] == n && chain[|chain| - 1] == k;
    ChainOn(step, m, chain);
    var longer := [m] + chain;
    assert longer[0] == m && longer[|longer| - 1] == k;
  }

  /** What holds at the start and is kept by every step holds wherever the steps lead. */
  lemma {:induction false} KeptAlong(step: Step, kept: string -> bool, chain: seq<string>)
    requires IsChain(step, chain) && kept(chain[0])
    requires forall m, n :: kept(m) && step(m, n) ==> kept(n)
    ensures kept(chain[|chain| - 1])
    decreases |chain|
  {
    if |chain| > 1 {
      var rest := chain[1..];
      assert step(chain[0], chain[0 + 1]);
      forall i | 0 <= i < |rest| - 1 ensures step(rest[i], rest[i + 1]) { assert step(chain[i + 1], chain[i + 1 + 1]); }
      KeptAlong(step, kept, rest);
    }
  }

  lemma LeadsFirst(step: Step, m: string, k: string)
    requires Leads(step, m, k)
    ensures m == k || exists n :: step(m, n) && Leads(step, n, k)
  {
    var chain :| IsChain(step, chain) && chain[0] == m && chain[|chain| - 1] == k;
    if |chain| > 1 {
      PieceOfChain(step, chain, 1, |chain| - 1);
      assert step(chain[0], chain[0 + 1]);
    }
  }

  lemma LeadsThenOn(step: Step, m: string, n: string, k: string)
    requires Leads(step, m, n) && step(n, k)
    ensures Leads(step, m, k)
  {
    var chain :| IsChain(step, chain) && chain[0] == m && chain[|chain| - 1] == n;
    var longer := chain + [k];
    forall i | 0 <= i < |longer| - 1 ensures step(longer[i], longer[i + 1]) {
      if i < |chain| - 1 { assert longer[i] == chain[i] && longer[i + 1] == chain[i + 1]; }
    }
    assert IsChain(step, longer) && longer[0] == m && longer[|longer| - 1] == k;
  }

  lemma PieceOfChain(step: Step, chain: seq<string>, i: nat, j: nat)
    requires IsChain(step, chain) && i <= j < |chain|
    ensures Leads(step, chain[i], chain[j])
  {
    var piece := chain[i..j + 1];
    forall k | 0 <= k < |piece| - 1 ensures step(piece[k], piece[k + 1]) { assert step(chain[i + k], chain[i + k + 1]); }
    assert IsChain(step, piece) && piece[0] == chain[i] && piece[|piece| - 1] == chain[j];
  }

  // ----- chains that end

  /** No chain from `m` takes more than `d` steps. */
  ghost predicate Ends(step: Step, m: string, d: nat)
    decreases d
  {
    forall n :: step(m, n) ==> d > 0 && Ends(step, n, d - 1)
  }

  lemma {:induction false} EndsSooner(step: Step, m: string, d: nat, e: nat)
    requires Ends(step, m, d) && d <= e
    ensures Ends(step, m, e)
    decreases d
  {
    forall n | step(m, n) ensures Ends(step, n, e - 1) { EndsSooner(step, n, d - 1, e - 1); }
  }

  /** Some chain from `n` comes back to it. */
  ghost predicate ComesBack(step: Step, n: string) {
    exists k :: step(n, k) && Leads(step, k, n)
  }

  ghost predicate NeverComesBack(step: Step, m: string) {
    forall n :: Leads(step, m, n) ==> !ComesBack(step, n)
  }

  lemma {:induction false} LeadsOnEnds(step: Step, m: string, k: string, d: nat)
    requires Ends(step, m, d) && Leads(step, m, k)
    ensures exists e: nat :: e <= d && Ends(step, k, e)
    decreases d
  {
    hide Leads;
    LeadsFirst(step, m, k);
    if m != k {
      var n :| step(m, n) && Leads(step, n, k);
      LeadsOnEnds(step, n, k, d - 1);
    }
  }

  lemma {:induction false} EndingDoesNotComeBack(step: Step, n: string, d: nat)
    requires Ends(step, n, d)
    ensures !ComesBack(step, n)
    decreases d
  {
    hide Leads;
    if ComesBack(step, n) {
      var k :| step(n, k) && Leads(step, k, n);
      LeadsOnEnds(step, k, n, d - 1);
      var e: nat :| e <= d - 1 && Ends(step, n, e);
      EndingDoesNotComeBack(step, n, e);
      assert false;
    }
  }

  /** From a start whose chains do not end in `d` steps, one of `d + 1` steps. */
  lemma {:induction false} LongChain(step: Step, m: string, d: nat) returns (chain: seq<string>)
    requires !Ends(step, m, d)
    ensures IsChain(step, chain) && chain[0] == m && |chain| == d + 2
    decreases d
  {
    var n :| step(m, n) && !(d > 0 && Ends(step, n, d - 1));
    var rest := [n];
    if d > 0 { rest := LongChain(step, n, d - 1); } else { assert IsChain(step, rest); }
    ChainOn(step, m, rest);
    chain := [m] + rest;
  }

  /** More places in a list than things to put there: one appears twice. */
  lemma {:induction false} Pigeonhole(xs: seq<string>, from: set<string>) returns (i: nat, j: nat)
    requires |from| < |xs| && forall k :: 0 <= k < |xs| ==> xs[k] in from
    ensures i < j < |xs| && xs[i] == xs[j]
    decreases |xs|
  {
    var front, x := xs[..|xs| - 1], xs[|xs| - 1];
    if x in front {
      i :| 0 <= i < |front| && front[i] == x;
      j := |xs| - 1;
    } else {
      i, j := Pigeonhole(front, from - {x});
    }
  }

  /** Where steps start in a finite set, the chains from `m` all end if and only if none of
      them comes to something that leads back to itself; and then within as many steps as
      the set has members. */
  lemma EndsExactly(step: Step, starts: set<string>, m: string)
    requires forall n, k :: step(n, k) ==> n in starts
    ensures NeverComesBack(step, m) <==> Ends(step, m, |starts|)
    ensures (exists d: nat :: Ends(step, m, d)) <==> Ends(step, m, |starts|)
  {
    hide Ends, Leads, ComesBack;
    forall d: nat, n | Ends(step, m, d) && Leads(step, m, n) ensures !ComesBack(step, n) {
      LeadsOnEnds(step, m, n, d);
      var e: nat :| e <= d && Ends(step, n, e);
      EndingDoesNotComeBack(step, n, e);
    }
    if !Ends(step, m, |starts|) { BackAgain(step, starts, m); }
  }

  lemma BackAgain(step: Step, starts: set<string>, m: string)
    requires forall n, k :: step(n, k) ==> n in starts
    requires !Ends(step, m, |starts|)
    ensures !NeverComesBack(step, m)
  {
    hide Ends, Leads;
    var chain := LongChain(step, m, |starts|);
    var front := chain[..|chain| - 1];
    forall i | 0 <= i < |front| ensures front[i] in starts { assert step(chain[i], chain[i + 1]); }
    var i, j := Pigeonhole(front, starts);
    PieceOfChain(step, chain, 0, i);
    PieceOfChain(step, chain, i + 1, j);
    assert step(chain[i], chain[i + 1]);
    assert ComesBack(step, chain[i]);
  }
}

/** Response schemas and the guard that keeps numbers out of them (src/llm/schema_guard.py). */
module Schemas {
  import opened Chains

  type ModelId = string

  datatype Kind = ListOf | SetOf | FrozenSetOf | TupleOf | DictOf

  /** A member of an enum; `numeric` says it is a number or has one for its value. */
  datatype EnumMember = EnumMember(name: string, numeric: bool)

  /** A field annotation, as the guard and the neutral generator tell them apart. A
      container without arguments is a bare one (`typing.List`); EmptyTuple is `tuple[()]`,
      which looks the same to both. IntType stands for int and its subclasses other than
      bool and enums, ForbiddenScalar for float, Decimal and complex. Unseen is what the
      guard does not look into: any other generic with its arguments (`Sequence[float]`,
      `Mapping[str, Model]`), and anything else it does not name; `numeric` says a number
      can be written there directly (`Any`, `Literal[1, 2]`, `Fraction`, a bare `list`). */
  datatype Annotation =
    | NoneType
    | Annotated(inner: Annotation, marked: bool)
    | UnionOf(args: seq<Annotation>)
    | Container(kind: Kind, args: seq<Annotation>)
    | EmptyTuple
    | Dots
    | Nested(model: ModelId)
    | EnumType(intBased: bool, members: seq<EnumMember>)
    | BoolType
    | StrType
    | IntType
    | ForbiddenScalar
    | Unseen(numeric: bool, args: seq<Annotation>)

  datatype Field = Field(name: string, annotation: Annotation, marked: bool, required: bool)

  /** The fields of every model; models may refer to one another in cycles. A model that
      keeps extra fields has one more, Unseen and not required. */
  type Schema = map<ModelId, seq<Field>>

  function FieldsOf(schema: Schema, m: ModelId): seq<Field> {
    if m in schema then schema[m] else []
  }

  // ----- what a schema means, without any traversal

  /** The guard's rule is broken inside this annotation itself, not counting nested models.
      `ok` says the conviction mark is in force. */
  predicate BadLeaf(a: Annotation, ok: bool) {
    match a
    case Annotated(inner, marked) => BadLeaf(inner, ok || marked)
    case UnionOf(args) => exists i :: 0 <= i < |args| && args[i] != Dots && BadLeaf(args[i], ok)
    case Container(_, args) => exists i :: 0 <= i < |args| && args[i] != Dots && BadLeaf(args[i], ok)
    case EnumType(intBased, _) => intBased
    case ForbiddenScalar => true
    case IntType => !ok
    case _ => false
  }

  /** The annotation refers to model `m`. */
  predicate Mentions(a: Annotation, m: ModelId) {
    match a
    case Annotated(inner, _) => Mentions(inner, m)
    case UnionOf(args) => exists i :: 0 <= i < |args| && args[i] != Dots && Mentions(args[i], m)
    case Container(_, args) => exists i :: 0 <= i < |args| && args[i] != Dots && Mentions(args[i], m)
    case Nested(n) => n == m
    case _ => false
  }

  predicate Clean(schema: Schema, m: ModelId) {
    forall f :: f in FieldsOf(schema, m) ==> !BadLeaf(f.annotation, f.marked)
  }

  predicate Refers(schema: Schema, m: ModelId, n: ModelId) {
    exists f :: f in FieldsOf(schema, m) && Mentions(f.annotation, n)
  }

  function Referring(schema: Schema): Step {
    (m, n) => Refers(schema, m, n)
  }

  /** Some chain of references leads from `m` to `n`. */
  ghost predicate Reaches(schema: Schema, m: ModelId, n: ModelId) {
    Leads(Referring(schema), m, n)
  }

  /** The rule is kept in every model the guard can reach from `m`. What that means for the
      values of the schema is in SchemaValues. */
  ghost predicate NumberFree(schema: Schema, m: ModelId) {
    forall n :: Reaches(schema, m, n) ==> Clean(schema, n)
  }

  lemma NumberFreeStep(schema: Schema, m: ModelId, n: ModelId)
    requires NumberFree(schema, m) && Refers(schema, m, n)
    ensures NumberFree(schema, n) && Clean(schema, m)
  {
    forall k | Reaches(schema, n, k) ensures Clean(schema, k) { LeadsOn(Referring(schema), m, n, k); }
    LeadsToItself(Referring(schema), m);
    assert Reaches(schema, m, m);
  }
}

module SchemaGuard {
  import opened Chains
  import opened Schemas

  /** Everything seen since `before` has been checked and has all its references seen. */
  ghost predicate Explored(schema: Schema, before: set<ModelId>, seen: set<ModelId>) {
    && before <= seen
    && forall m :: m in seen && m !in before ==>
         Clean(schema, m) && forall n :: Refers(schema, m, n) ==> n in seen
  }

  ghost predicate AllSeen(a: Annotation, seen: set<ModelId>) {
    forall m :: Mentions(a, m) ==> m in seen
  }

  /** The rule is broken here, or in some model reached from here. */
  ghost predicate Offends(schema: Schema, a: Annotation, ok: bool) {
    BadLeaf(a, ok) || exists m :: Mentions(a, m) && !NumberFree(schema, m)
  }

  lemma ExploredThen(schema: Schema, a: set<ModelId>, b: set<ModelId>, c: set<ModelId>)
    requires Explored(schema, a, b) && Explored(schema, b, c)
    ensures Explored(schema, a, c)
  {
  }

  /** The traversal, with the set of models already visited as shared state. */
  class Guard {
    const schema: Schema
    var seen: set<ModelId>

    constructor (schema: Schema)
      ensures this.schema == schema && seen == {}
    {
      this.schema := schema;
      seen := {};
    }

    /** False stands for InvalidLLMSchemaError. */
    method CheckAnnotation(a: Annotation, ok: bool) returns (accepted: bool)
      modifies this`seen
      ensures old(seen) <= seen
      ensures accepted ==> !BadLeaf(a, ok) && AllSeen(a, seen) && Explored(schema, old(seen), seen)
      ensures !accepted ==> Offends(schema, a, ok)
      decreases schema.Keys - seen, 1, a
    {
      match a {
        case Annotated(inner, marked) =>
          accepted := CheckAnnotation(inner, ok || marked);
        case UnionOf(args) =>
          accepted := CheckArguments(a, args, ok);
        case Container(_, args) =>
          accepted := CheckArguments(a, args, ok);
        case Nested(m) =>
          accepted := WalkModel(m);
        case EnumType(intBased, _) =>
          accepted := !intBased;
        case ForbiddenScalar =>
          accepted := false;
        case IntType =>
          accepted := ok;
        case _ =>
          accepted := true;
      }
    }

    /** The loop over the arguments of a union or a container, `...` skipped. */
    method CheckArguments(a: Annotation, args: seq<Annotation>, ok: bool) returns (accepted: bool)
      requires (a.UnionOf? && a.args == args) || (a.Container? && a.args == args)
      modifies this`seen
      ensures old(seen) <= seen
      ensures accepted ==> !BadLeaf(a, ok) && AllSeen(a, seen) && Explored(schema, old(seen), seen)
      ensures !accepted ==> Offends(schema, a, ok)
      decreases schema.Keys - seen, 1, a, 0
    {
      ghost var before := seen;
      for i := 0 to |args|
        invariant before <= seen && Explored(schema, before, seen)
        invariant forall j :: 0 <= j < i && args[j] != Dots ==> !BadLeaf(args[j], ok) && AllSeen(args[j], seen)
      {
        if args[i] != Dots {
          ghost var here := seen;
          accepted := CheckAnnotation(args[i], ok);
          if !accepted {
            OffendsUp(schema, a, args, i, ok);
            return false;
          }
          ExploredThen(schema, before, here, seen);
        }
      }
      accepted := true;
    }

    method WalkModel(m: ModelId) returns (accepted: bool)
      modifies this`seen
      ensures old(seen) <= seen && (accepted ==> m in seen)
      ensures accepted ==> Explored(schema, old(seen), seen)
      ensures !accepted ==> !NumberFree(schema, m)
      decreases schema.Keys - seen, 0
    {
      if m in seen {
        return true;
      }
      ghost var before := seen;
      seen := seen + {m};
      ghost var entered := seen;
      var fields := FieldsOf(schema, m);
      for i := 0 to |fields|
        invariant entered <= seen && Explored(schema, entered, seen)
        invariant forall j :: 0 <= j < i ==> !BadLeaf(fields[j].annotation, fields[j].marked) && AllSeen(fields[j].annotation, seen)
      {
        ghost var here := seen;
        accepted := CheckAnnotation(fields[i].annotation, fields[i].marked);
        if !accepted {
          FieldOffends(schema, m, fields[i]);
          return false;
        }
        ExploredThen(schema, entered, here, seen);
      }
      accepted := true;
    }
  }

  lemma OffendsUp(schema: Schema, a: Annotation, args: seq<Annotation>, i: nat, ok: bool)
    requires (a.UnionOf? && a.args == args) || (a.Container? && a.args == args)
    requires i < |args| && args[i] != Dots && Offends(schema, args[i], ok)
    ensures Offends(schema, a, ok)
  {
    if !BadLeaf(args[i], ok) {
      var m :| Mentions(args[i], m) && !NumberFree(schema, m);
      assert Mentions(a, m);
    }
  }

  lemma FieldOffends(schema: Schema, m: ModelId, f: Field)
    requires f in FieldsOf(schema, m) && Offends(schema, f.annotation, f.marked)
    ensures !NumberFree(schema, m)
  {
    if BadLeaf(f.annotation, f.marked) {
      LeadsToItself(Referring(schema), m);
      assert Reaches(schema, m, m);
    } else {
      var n :| Mentions(f.annotation, n) && !NumberFree(schema, n);
      var k :| Reaches(schema, n, k) && !Clean(schema, k);
      LeadsOn(Referring(schema), m, n, k);
      assert Reaches(schema, m, k);
    }
  }

  /** A set that contains its root and all its references contains everything reachable. */
  lemma ExploredIsNumberFree(schema: Schema, root: ModelId, seen: set<ModelId>)
    requires Explored(schema, {}, seen) && root in seen
    ensures NumberFree(schema, root)
  {
    var step := Referring(schema);
    forall n | Reaches(schema, root, n) ensures Clean(schema, n) {
      var chain :| IsChain(step, chain) && chain[0] == root && chain[|chain| - 1] == n;
      KeptAlong(step, m => m in seen, chain);
    }
  }

  /** The guard terminates on every finite graph of models, cycles included, and accepts
      exactly the models from which no breach of its rule can be reached through fields,
      inspected containers, unions and nested models. Anything that is not a model is
      refused. */
  method ValidateLlmSchema(schema: Schema, response: Annotation) returns (accepted: bool)
    ensures accepted <==> response.Nested? && NumberFree(schema, response.model)
  {
    if !response.Nested? {
      return false;
    }
    var guard := new Guard(schema);
    accepted := guard.WalkModel(response.model);
    if accepted {
      ExploredIsNumberFree(schema, response.model, guard.seen);
    }
  }
}
