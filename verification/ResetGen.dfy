/**
 The Reset generator (cmd/reset/main.go): a compiler from field types to statements. The
 statements get a meaning over a memory of typed variables in which pointers may alias,
 and the generated code is proved to perform the type-directed reset.
 */
module ResetGen {
  import opened Model

  /** go/ast type expressions, as far as the generator tells them apart. */
  datatype TypeExpr =
    | Ident(name: string)
    | Selector(pkg: string, name: string)
    | SliceOf(elem: TypeExpr)
    | ArrayOf(length: nat, elem: TypeExpr)
    | MapOf(key: TypeExpr, elem: TypeExpr)
    | Star(inner: TypeExpr)
    | InterfaceType
    | ChanOf(elem: TypeExpr)
    | FuncType
    | OtherType                      // inline structs, generic instances, parenthesised types

  datatype Literal = ZeroNumber | ZeroBool | EmptyString

  /** The table of builtin types and their zero literals. */
  type Zeros = map<string, Literal>

  const PRIMITIVE_ZERO: Zeros := map[
    "int" := ZeroNumber, "int8" := ZeroNumber, "int16" := ZeroNumber, "int32" := ZeroNumber, "int64" := ZeroNumber,
    "uint" := ZeroNumber, "uint8" := ZeroNumber, "uint16" := ZeroNumber, "uint32" := ZeroNumber, "uint64" := ZeroNumber,
    "uintptr" := ZeroNumber, "byte" := ZeroNumber, "rune" := ZeroNumber,
    "float32" := ZeroNumber, "float64" := ZeroNumber,
    "complex64" := ZeroNumber, "complex128" := ZeroNumber,
    "bool" := ZeroBool,
    "string" := EmptyString]

  // ---- The compiler -----------------------------------------------------------------------

  /** Statements about one field of the receiver. */
  datatype Stmt =
    | AssignZero(field: string, lit: Literal)      // r.f = 0
    | Truncate(field: string)                      // r.f = r.f[:0]
    | ClearMap(field: string)                      // clear(r.f)
    | AssignNil(field: string)                     // r.f = nil
    | ResetAddress(field: string)                  // if _r, _ok := any(&r.f).(interface{ Reset() }); _ok { _r.Reset() }
    | IfNotNil(field: string, body: Stmt)          // if r.f != nil { body }
    | StoreThrough(field: string, lit: Literal)    // *r.f = 0
    | ResetTarget(field: string)                   // if _r, _ok := any(r.f).(interface{ Reset() }); _ok { _r.Reset() }

  function ResetLine(zeros: Zeros, field: string, t: TypeExpr): Option<Stmt> {
    match t
    case Ident(n) => Some(if n in zeros then AssignZero(field, zeros[n]) else ResetAddress(field))
    case Selector(_, _) => Some(ResetAddress(field))
    case SliceOf(_) => Some(Truncate(field))
    case ArrayOf(_, _) => None
    case MapOf(_, _) => Some(ClearMap(field))
    case Star(inner) => Some(PtrResetLine(zeros, field, inner))
    case InterfaceType => Some(AssignNil(field))
    case ChanOf(_) => Some(AssignNil(field))
    case FuncType => Some(AssignNil(field))
    case OtherType => None
  }

  function PtrResetLine(zeros: Zeros, field: string, inner: TypeExpr): Stmt {
    if inner.Ident? && inner.name in zeros then IfNotNil(field, StoreThrough(field, zeros[inner.name]))
    else IfNotNil(field, ResetTarget(field))
  }

  /** A field declaration: several names share a type, and no name means an embedded type. */
  datatype Field = Field(names: seq<string>, typ: TypeExpr)

  function EmbeddedTypeName(t: TypeExpr): Option<string> {
    match t
    case Ident(n) => Some(n)
    case Star(inner) => EmbeddedTypeName(inner)
    case Selector(_, n) => Some(n)
    case _ => None
  }

  function FieldNames(f: Field): seq<string> {
    if f.names != [] then f.names
    else if EmbeddedTypeName(f.typ).Some? then [EmbeddedTypeName(f.typ).value]
    else []
  }

  /** A field as the struct has it: one name, one type. */
  datatype Member = Member(name: string, typ: TypeExpr)

  function MembersOf(f: Field): seq<Member> {
    var names := FieldNames(f);
    seq(|names|, i requires 0 <= i < |names| => Member(names[i], f.typ))
  }

  function Members(fields: seq<Field>): seq<Member> {
    if fields == [] then [] else Members(fields[..|fields| - 1]) + MembersOf(fields[|fields| - 1])
  }

  function Lines(zeros: Zeros, ms: seq<Member>): seq<Stmt> {
    if ms == [] then []
    else
      var m := ms[|ms| - 1];
      var line := ResetLine(zeros, m.name, m.typ);
      Lines(zeros, ms[..|ms| - 1]) + if line.Some? then [line.value] else []
  }

  lemma LinesConcat(zeros: Zeros, a: seq<Member>, b: seq<Member>)
    ensures Lines(zeros, a + b) == Lines(zeros, a) + Lines(zeros, b)
  {
    if b == [] {
      assert a + b == a;
    } else {
      assert (a + b)[..|a + b| - 1] == a + b[..|b| - 1];
      LinesConcat(zeros, a, b[..|b| - 1]);
    }
  }

  /** The innermost loop of generateSource: one statement per name of a field, where there is one. */
  method GenerateField(zeros: Zeros, field: Field) returns (lines: seq<Stmt>)
    ensures lines == Lines(zeros, MembersOf(field))
  {
    lines := [];
    var names := FieldNames(field);
    ghost var members := MembersOf(field);
    for k := 0 to |names|
      invariant lines == Lines(zeros, members[..k])
    {
      assert members[..k + 1][..k] == members[..k];
      var line := ResetLine(zeros, names[k], field.typ);
      if line.Some? {
        lines := lines + [line.value];
      }
    }
    assert members[..|names|] == members;
  }

  /** The loop of generateSource over the fields of one struct. */
  method GenerateLines(zeros: Zeros, fields: seq<Field>) returns (lines: seq<Stmt>)
    ensures lines == Lines(zeros, Members(fields))
  {
    lines := [];
    for i := 0 to |fields|
      invariant lines == Lines(zeros, Members(fields[..i]))
    {
      var more := GenerateField(zeros, fields[i]);
      LinesStep(zeros, fields, i);
      lines := lines + more;
    }
    assert fields[..|fields|] == fields;
  }

  lemma LinesStep(zeros: Zeros, fields: seq<Field>, i: nat)
    requires i < |fields|
    ensures
      Lines(zeros, Members(fields[..i + 1])) == Lines(zeros, Members(fields[..i])) + Lines(zeros, MembersOf(fields[i]))
  {
    assert fields[..i + 1][..i] == fields[..i];
    LinesConcat(zeros, Members(fields[..i]), MembersOf(fields[i]));
  }

  // ---- Memory -------------------------------------------------------------------------------

  type Loc = nat

  /** Every variable, and so every field of every struct, has its own location. */
  datatype Value =
    | Number(n: int)
    | Boolean(b: bool)
    | Text(s: string)
    | Slice(backing: Option<Loc>, length: nat, capacity: nat)
    | MapRef(target: Option<Loc>)
    | MapObject(entries: map<string, Loc>)
    | Pointer(target: Option<Loc>)
    | Reference(target: Option<Loc>)        // interface, channel, function
    | Struct(fields: map<string, Loc>)
    | Blob(data: seq<Loc>)                  // fixed arrays and what the generator skips

  type Memory = map<Loc, Value>

  function Zero(lit: Literal): Value {
    match lit
    case ZeroNumber => Number(0)
    case ZeroBool => Boolean(false)
    case EmptyString => Text("")
  }

  predicate OfKind(v: Value, lit: Literal) {
    match lit
    case ZeroNumber => v.Number?
    case ZeroBool => v.Boolean?
    case EmptyString => v.Text?
  }

  /** decls: the types that have a generated Reset; types: the declared type of every variable. */
  datatype Env = Env(zeros: Zeros, decls: map<TypeExpr, seq<Member>>, types: map<Loc, TypeExpr>) {
    predicate Primitive(t: TypeExpr) {
      t.Ident? && t.name in zeros
    }

    /** Does a pointer to a variable of type t satisfy interface{ Reset() }? */
    predicate HasReset(t: TypeExpr) {
      (t.Ident? || t.Selector?) && !Primitive(t) && t in decls
    }
  }

  predicate FieldsTyped(env: Env, fields: map<string, Loc>, ms: seq<Member>) {
    forall i :: 0 <= i < |ms| ==>
      ms[i].name in fields && fields[ms[i].name] in env.types && env.types[fields[ms[i].name]] == ms[i].typ
  }

  predicate OfType(env: Env, mem: Memory, v: Value, t: TypeExpr) {
    && (env.Primitive(t) ==> OfKind(v, env.zeros[t.name]))
    && (env.HasReset(t) ==> v.Struct? && FieldsTyped(env, v.fields, env.decls[t]))
    && (t.SliceOf? ==> v.Slice?)
    && (t.MapOf? ==> v.MapRef? && (v.target.Some? ==> v.target.value in mem && mem[v.target.value].MapObject?))
    && (t.Star? ==> v.Pointer? && (v.target.Some? ==> v.target.value in env.types && env.types[v.target.value] == t.inner))
    && (t.InterfaceType? || t.ChanOf? || t.FuncType? ==> v.Reference?)
  }

  predicate WellTyped(env: Env, mem: Memory) {
    forall l :: l in env.types ==> l in mem && OfType(env, mem, mem[l], env.types[l])
  }

  // ---- What the statements do ---------------------------------------------------------------

  /** OutOfFuel: more nested Reset calls than the given number. */
  datatype Outcome = Finished(mem: Memory) | Panic | OutOfFuel

  /** The location of a field of the struct at l. */
  function FieldAt(mem: Memory, l: Loc, field: string): Option<Loc> {
    if l in mem && mem[l].Struct? && field in mem[l].fields then Some(mem[l].fields[field]) else None
  }

  /** Calling the generated method on the struct at l, at most fuel calls deep. */
  function CallReset(env: Env, mem: Memory, l: Loc, fuel: nat): Outcome
    decreases fuel, 1, 0, 0
  {
    if l !in env.types || !env.HasReset(env.types[l]) then Finished(mem)   // the type assertion fails
    else if fuel == 0 then OutOfFuel
    else ExecAll(env, mem, Lines(env.zeros, env.decls[env.types[l]]), l, fuel)
  }

  function ExecAll(env: Env, mem: Memory, stmts: seq<Stmt>, l: Loc, fuel: nat): Outcome
    requires fuel > 0
    decreases fuel, 0, |stmts|, 0
  {
    if stmts == [] then Finished(mem)
    else
      var o := ExecAll(env, mem, stmts[..|stmts| - 1], l, fuel);
      if o.Finished? then Exec(env, o.mem, stmts[|stmts| - 1], l, fuel) else o
  }

  function Exec(env: Env, mem: Memory, stmt: Stmt, l: Loc, fuel: nat): Outcome
    requires fuel > 0
    decreases fuel, 0, 0, stmt
  {
    var at := FieldAt(mem, l, stmt.field);
    if at.None? || at.value !in mem then Panic
    else
      var f, v := at.value, mem[at.value];
      match stmt
      case AssignZero(_, lit) => Finished(mem[f := Zero(lit)])
      case Truncate(_) => if v.Slice? then Finished(mem[f := v.(length := 0)]) else Panic
      case ClearMap(_) =>
        if !v.MapRef? then Panic
        else if v.target.None? then Finished(mem)
        else Finished(mem[v.target.value := MapObject(map[])])
      case AssignNil(_) => if v.Reference? then Finished(mem[f := Reference(None)]) else Panic
      case ResetAddress(_) => CallReset(env, mem, f, fuel - 1)
      case IfNotNil(_, body) =>
        if !v.Pointer? then Panic
        else if v.target.None? then Finished(mem)
        else Exec(env, mem, body, l, fuel)
      case StoreThrough(_, lit) =>
        if !v.Pointer? || v.target.None? then Panic
        else Finished(mem[v.target.value := Zero(lit)])
      case ResetTarget(_) =>
        if !v.Pointer? || v.target.None? then Panic
        else CallReset(env, mem, v.target.value, fuel - 1)
  }

  /** The generated method on a possibly nil receiver. */
  function Reset(env: Env, mem: Memory, receiver: Option<Loc>, fuel: nat): Outcome {
    if receiver.None? then Finished(mem) else CallReset(env, mem, receiver.value, fuel)
  }

  // ---- The type-directed reset ---------------------------------------------------------------

  /** What resetting one variable makes of its value. */
  function Cleared(v: Value): Value {
    match v
    case Number(_) => Number(0)
    case Boolean(_) => Boolean(false)
    case Text(_) => Text("")
    case Slice(b, _, c) => Slice(b, 0, c)
    case MapObject(_) => MapObject(map[])
    case Reference(_) => Reference(None)
    case _ => v
  }

  /** Clear every variable of a set, all at once. */
  function Sweep(mem: Memory, locs: set<Loc>): Memory {
    map l | l in mem :: if l in locs then Cleared(mem[l]) else mem[l]
  }

  /** The struct whose Reset a field of type t at f delegates to. */
  function Delegate(env: Env, mem: Memory, f: Loc, t: TypeExpr): Option<Loc> {
    if env.HasReset(t) then Some(f)
    else if t.Star? && env.HasReset(t.inner) && f in mem && mem[f].Pointer? then mem[f].target
    else None
  }

  /** The variables a field of type t at f is reset in directly. */
  function Direct(env: Env, mem: Memory, f: Loc, t: TypeExpr): set<Loc> {
    if env.Primitive(t) || t.SliceOf? || t.InterfaceType? || t.ChanOf? || t.FuncType? then {f}
    else if t.MapOf? && f in mem && mem[f].MapRef? && mem[f].target.Some? then {mem[f].target.value}
    else if t.Star? && env.Primitive(t.inner) && f in mem && mem[f].Pointer? && mem[f].target.Some?
      then {mem[f].target.value}
    else {}
  }

  function FieldLoc(mem: Memory, l: Loc, m: Member): Loc {
    if FieldAt(mem, l, m.name).Some? then FieldAt(mem, l, m.name).value else 0
  }

  /** Everything that resetting the struct at l, fuel calls deep, touches. */
  function Touched(env: Env, mem: Memory, l: Loc, fuel: nat): set<Loc>
    decreases fuel, 1, 0
  {
    if l !in env.types || !env.HasReset(env.types[l]) || fuel == 0 then {}
    else TouchedByMembers(env, mem, env.decls[env.types[l]], l, fuel)
  }

  function TouchedByMembers(env: Env, mem: Memory, ms: seq<Member>, l: Loc, fuel: nat): set<Loc>
    requires fuel > 0
    decreases fuel, 0, |ms|
  {
    if ms == [] then {}
    else
      var m := ms[|ms| - 1];
      var f := FieldLoc(mem, l, m);
      var d := Delegate(env, mem, f, m.typ);
      TouchedByMembers(env, mem, ms[..|ms| - 1], l, fuel) + Direct(env, mem, f, m.typ) +
      if d.Some? then Touched(env, mem, d.value, fuel - 1) else {}
  }

  /** Fewer than fuel calls are ever nested. */
  predicate Terminates(env: Env, mem: Memory, l: Loc, fuel: nat)
    decreases fuel, 1
  {
    l in env.types && env.HasReset(env.types[l]) ==>
      fuel > 0 &&
      forall i :: 0 <= i < |env.decls[env.types[l]]| ==> MemberTerminates(env, mem, env.decls[env.types[l]][i], l, fuel)
  }

  predicate MemberTerminates(env: Env, mem: Memory, m: Member, l: Loc, fuel: nat)
    requires fuel > 0
    decreases fuel, 0
  {
    var d := Delegate(env, mem, FieldLoc(mem, l, m), m.typ);
    d.Some? ==> Terminates(env, mem, d.value, fuel - 1)
  }

  // ---- Sweeping changes no shape -------------------------------------------------------------

  lemma SweepTwice(mem: Memory, a: set<Loc>, b: set<Loc>)
    ensures Sweep(Sweep(mem, a), b) == Sweep(mem, a + b)
  {
  }

  lemma SweepWellTyped(env: Env, mem: Memory, locs: set<Loc>)
    requires WellTyped(env, mem)
    ensures WellTyped(env, Sweep(mem, locs))
  {
    forall l | l in env.types ensures OfType(env, Sweep(mem, locs), Sweep(mem, locs)[l], env.types[l]) {
      ClearedOfType(env, mem, locs, mem[l], env.types[l]);
    }
  }

  lemma ClearedOfType(env: Env, mem: Memory, locs: set<Loc>, v: Value, t: TypeExpr)
    requires OfType(env, mem, v, t)
    ensures OfType(env, Sweep(mem, locs), v, t) && OfType(env, Sweep(mem, locs), Cleared(v), t)
  {
  }

  /** Struct layouts, pointers and map references are the same before and after. */
  lemma SweepKeepsShape(env: Env, mem: Memory, locs: set<Loc>, l: Loc, m: Member)
    ensures
      var s, f := Sweep(mem, locs), FieldLoc(mem, l, m);
      && FieldAt(s, l, m.name) == FieldAt(mem, l, m.name) && FieldLoc(s, l, m) == f
      && Delegate(env, s, f, m.typ) == Delegate(env, mem, f, m.typ)
      && Direct(env, s, f, m.typ) == Direct(env, mem, f, m.typ)
  {
  }

  lemma {:induction false} SweepKeepsTouched(env: Env, mem: Memory, locs: set<Loc>, l: Loc, fuel: nat)
    ensures Touched(env, Sweep(mem, locs), l, fuel) == Touched(env, mem, l, fuel)
    decreases fuel, 1, 0
  {
    if l in env.types && env.HasReset(env.types[l]) && fuel > 0 {
      SweepKeepsTouchedByMembers(env, mem, locs, env.decls[env.types[l]], l, fuel);
    }
  }

  lemma {:induction false} SweepKeepsTouchedByMembers(env: Env, mem: Memory, locs: set<Loc>, ms: seq<Member>, l: Loc, fuel: nat)
    requires fuel > 0
    ensures TouchedByMembers(env, Sweep(mem, locs), ms, l, fuel) == TouchedByMembers(env, mem, ms, l, fuel)
    decreases fuel, 0, |ms|
  {
    if ms == [] {
    } else {
      var m := ms[|ms| - 1];
      SweepKeepsTouchedByMembers(env, mem, locs, ms[..|ms| - 1], l, fuel);
      SweepKeepsShape(env, mem, locs, l, m);
      var d := Delegate(env, mem, FieldLoc(mem, l, m), m.typ);
      if d.Some? {
        SweepKeepsTouched(env, mem, locs, d.value, fuel - 1);
      }
    }
  }

  lemma {:induction false} SweepKeepsTermination(env: Env, mem: Memory, locs: set<Loc>, l: Loc, fuel: nat)
    ensures Terminates(env, Sweep(mem, locs), l, fuel) == Terminates(env, mem, l, fuel)
    decreases fuel
  {
    if l in env.types && env.HasReset(env.types[l]) && fuel > 0 {
      var ms := env.decls[env.types[l]];
      forall i | 0 <= i < |ms|
        ensures MemberTerminates(env, Sweep(mem, locs), ms[i], l, fuel) == MemberTerminates(env, mem, ms[i], l, fuel)
      {
        SweepKeepsShape(env, mem, locs, l, ms[i]);
        var d := Delegate(env, mem, FieldLoc(mem, l, ms[i]), ms[i].typ);
        if d.Some? {
          SweepKeepsTermination(env, mem, locs, d.value, fuel - 1);
        }
      }
    }
  }

  // ---- The generated code performs it ----------------------------------------------------------

  /** One field: its statement, or none, clears what it should and delegates what it should. */
  ghost predicate MemberMeets(env: Env, mem: Memory, m: Member, l: Loc, fuel: nat)
    requires fuel > 0
  {
    var line := ResetLine(env.zeros, m.name, m.typ);
    var f := FieldLoc(mem, l, m);
    var d := Delegate(env, mem, f, m.typ);
    var o := if line.Some? then Exec(env, mem, line.value, l, fuel) else Finished(mem);
    o == if !MemberTerminates(env, mem, m, l, fuel) then OutOfFuel
         else Finished(Sweep(mem, Direct(env, mem, f, m.typ) + if d.Some? then Touched(env, mem, d.value, fuel - 1) else {}))
  }

  predicate CallMeets(env: Env, mem: Memory, l: Loc, fuel: nat) {
    CallReset(env, mem, l, fuel) ==
    if Terminates(env, mem, l, fuel) then Finished(Sweep(mem, Touched(env, mem, l, fuel))) else OutOfFuel
  }

  /** The field m of the struct at l exists and has its declared type. */
  predicate MemberTyped(env: Env, mem: Memory, m: Member, l: Loc) {
    var f := FieldAt(mem, l, m.name);
    f.Some? && f.value in env.types && env.types[f.value] == m.typ
  }

  lemma SweepNothing(mem: Memory)
    ensures Sweep(mem, {}) == mem
  {
  }

  lemma SweepOne(mem: Memory, l: Loc, v: Value)
    requires l in mem && v == Cleared(mem[l])
    ensures mem[l := v] == Sweep(mem, {l})
  {
  }

  lemma DirectMember(env: Env, mem: Memory, m: Member, l: Loc, fuel: nat)
    requires fuel > 0 && WellTyped(env, mem) && MemberTyped(env, mem, m, l)
    requires Delegate(env, mem, FieldLoc(mem, l, m), m.typ).None?
    ensures MemberMeets(env, mem, m, l, fuel)
  {
    var f := FieldLoc(mem, l, m);
    assert OfType(env, mem, mem[f], m.typ);
    SweepNothing(mem);
    if m.typ.Star? {
      DirectPointer(env, mem, m, l, fuel);
    } else if m.typ.MapOf? {
      DirectMap(env, mem, m, l, fuel);
    } else if f in mem {
      SweepOne(mem, f, Cleared(mem[f]));
    }
  }

  lemma DirectMap(env: Env, mem: Memory, m: Member, l: Loc, fuel: nat)
    requires fuel > 0 && WellTyped(env, mem) && MemberTyped(env, mem, m, l) && m.typ.MapOf?
    ensures MemberMeets(env, mem, m, l, fuel)
  {
    var f := FieldLoc(mem, l, m);
    assert OfType(env, mem, mem[f], m.typ);
    SweepNothing(mem);
    if mem[f].target.Some? {
      SweepOne(mem, mem[f].target.value, MapObject(map[]));
    }
  }

  lemma DirectPointer(env: Env, mem: Memory, m: Member, l: Loc, fuel: nat)
    requires fuel > 0 && WellTyped(env, mem) && MemberTyped(env, mem, m, l) && m.typ.Star?
    requires Delegate(env, mem, FieldLoc(mem, l, m), m.typ).None?
    ensures MemberMeets(env, mem, m, l, fuel)
  {
    var f := FieldLoc(mem, l, m);
    assert OfType(env, mem, mem[f], m.typ);
    SweepNothing(mem);
    if mem[f].target.Some? {
      var p := mem[f].target.value;
      assert OfType(env, mem, mem[p], m.typ.inner);
      if env.Primitive(m.typ.inner) {
        var lit := env.zeros[m.typ.inner.name];
        SweepOne(mem, p, Zero(lit));
        assert Exec(env, mem, StoreThrough(m.name, lit), l, fuel) == Finished(mem[p := Zero(lit)]);
      } else {
        assert Exec(env, mem, ResetTarget(m.name), l, fuel) == Finished(mem);
      }
    }
  }

  lemma DelegatedMember(env: Env, mem: Memory, m: Member, l: Loc, fuel: nat)
    requires fuel > 0 && WellTyped(env, mem) && MemberTyped(env, mem, m, l)
    requires
      var d := Delegate(env, mem, FieldLoc(mem, l, m), m.typ);
      d.Some? && CallMeets(env, mem, d.value, fuel - 1)
    ensures MemberMeets(env, mem, m, l, fuel)
  {
    var f := FieldLoc(mem, l, m);
    var d := Delegate(env, mem, f, m.typ).value;
    assert OfType(env, mem, mem[f], m.typ);
    assert Direct(env, mem, f, m.typ) == {};
    assert {} + Touched(env, mem, d, fuel - 1) == Touched(env, mem, d, fuel - 1);
  }

  predicate AllTerminate(env: Env, mem: Memory, ms: seq<Member>, l: Loc, fuel: nat)
    requires fuel > 0
  {
    forall i :: 0 <= i < |ms| ==> MemberTerminates(env, mem, ms[i], l, fuel)
  }

  lemma AllTerminateSnoc(env: Env, mem: Memory, ms: seq<Member>, l: Loc, fuel: nat)
    requires fuel > 0 && ms != []
    ensures var n := |ms| - 1;
      AllTerminate(env, mem, ms, l, fuel) <==>
      AllTerminate(env, mem, ms[..n], l, fuel) && MemberTerminates(env, mem, ms[n], l, fuel)
  {
    assert ms == ms[..|ms| - 1] + [ms[|ms| - 1]];
  }

  lemma {:induction false} MembersMeet(env: Env, mem: Memory, ms: seq<Member>, l: Loc, fuel: nat)
    requires fuel > 0 && WellTyped(env, mem)
    requires forall i :: 0 <= i < |ms| ==> MemberTyped(env, mem, ms[i], l)
    ensures ExecAll(env, mem, Lines(env.zeros, ms), l, fuel) ==
            if AllTerminate(env, mem, ms, l, fuel)
            then Finished(Sweep(mem, TouchedByMembers(env, mem, ms, l, fuel))) else OutOfFuel
    decreases fuel, 0, |ms|
  {
    if ms == [] {
      SweepNothing(mem);
    } else {
      var n := |ms| - 1;
      var before := TouchedByMembers(env, mem, ms[..n], l, fuel);
      MembersMeet(env, mem, ms[..n], l, fuel);
      AllTerminateSnoc(env, mem, ms, l, fuel);
      LastLine(env, mem, ms, l, fuel);
      if AllTerminate(env, mem, ms[..n], l, fuel) {
        SweepWellTyped(env, mem, before);
        SweepKeepsShape(env, mem, before, l, ms[n]);
        OneMemberMeets(env, Sweep(mem, before), ms[n], l, fuel);
        LastMember(env, mem, before, ms[n], l, fuel);
      }
    }
  }

  lemma {:induction false} OneMemberMeets(env: Env, mem: Memory, m: Member, l: Loc, fuel: nat)
    requires fuel > 0 && WellTyped(env, mem) && MemberTyped(env, mem, m, l)
    ensures MemberMeets(env, mem, m, l, fuel)
    decreases fuel, 0, 0
  {
    var d := Delegate(env, mem, FieldLoc(mem, l, m), m.typ);
    if d.Some? {
      ResetMeets(env, mem, d.value, fuel - 1);
      DelegatedMember(env, mem, m, l, fuel);
    } else {
      DirectMember(env, mem, m, l, fuel);
    }
  }

  /** Running the lines of all members is running those of all but the last, then the last's. */
  lemma LastLine(env: Env, mem: Memory, ms: seq<Member>, l: Loc, fuel: nat)
    requires fuel > 0 && ms != []
    ensures
      var n := |ms| - 1;
      var o := ExecAll(env, mem, Lines(env.zeros, ms[..n]), l, fuel);
      var line := ResetLine(env.zeros, ms[n].name, ms[n].typ);
      ExecAll(env, mem, Lines(env.zeros, ms), l, fuel) ==
      if o.Finished? && line.Some? then Exec(env, o.mem, line.value, l, fuel) else o
  {
    var front := Lines(env.zeros, ms[..|ms| - 1]);
    var line := ResetLine(env.zeros, ms[|ms| - 1].name, ms[|ms| - 1].typ);
    if line.Some? {
      var lines := front + [line.value];
      assert lines[..|lines| - 1] == front;
      assert Lines(env.zeros, ms) == lines;
    } else {
      assert front + [] == front;
    }
  }

  lemma UnionAssociates<T>(a: set<T>, b: set<T>, c: set<T>)
    ensures a + (b + c) == a + b + c
  {
  }

  /** The last member, run after the others, in terms of the memory before them all. */
  lemma LastMember(env: Env, mem: Memory, before: set<Loc>, m: Member, l: Loc, fuel: nat)
    requires fuel > 0 && MemberMeets(env, Sweep(mem, before), m, l, fuel)
    ensures
      var mid := Sweep(mem, before);
      var line := ResetLine(env.zeros, m.name, m.typ);
      var f := FieldLoc(mem, l, m);
      var d := Delegate(env, mem, f, m.typ);
      var o := if line.Some? then Exec(env, mid, line.value, l, fuel) else Finished(mid);
      o == if !MemberTerminates(env, mem, m, l, fuel) then OutOfFuel
           else Finished(Sweep(mem, before + Direct(env, mem, f, m.typ) +
                                    if d.Some? then Touched(env, mem, d.value, fuel - 1) else {}))
  {
    var f := FieldLoc(mem, l, m);
    var d := Delegate(env, mem, f, m.typ);
    SweepKeepsShape(env, mem, before, l, m);
    var rest := if d.Some? then Touched(env, mem, d.value, fuel - 1) else {};
    if d.Some? {
      SweepKeepsTouched(env, mem, before, d.value, fuel - 1);
      SweepKeepsTermination(env, mem, before, d.value, fuel - 1);
    }
    SweepTwice(mem, before, Direct(env, mem, f, m.typ) + rest);
    UnionAssociates(before, Direct(env, mem, f, m.typ), rest);
  }

  /**
   For every well-typed memory, however its pointers alias: the generated Reset either runs
   out of the allowed depth, or ends with exactly the touched variables cleared and all
   others as they were. It never dereferences nil.
   */
  lemma {:induction false} ResetMeets(env: Env, mem: Memory, l: Loc, fuel: nat)
    requires WellTyped(env, mem)
    ensures CallMeets(env, mem, l, fuel)
    decreases fuel, 1, 0
  {
    if l in env.types && env.HasReset(env.types[l]) {
      if fuel > 0 {
        var ms := env.decls[env.types[l]];
        assert OfType(env, mem, mem[l], env.types[l]);
        MembersMeet(env, mem, ms, l, fuel);
        assert Terminates(env, mem, l, fuel) <==> AllTerminate(env, mem, ms, l, fuel);
      }
    } else {
      SweepNothing(mem);
    }
  }

  // ---- Consequences ------------------------------------------------------------------------------

  /** Calling Reset a second time changes nothing, and ends exactly when the first call did. */
  lemma ResetTwice(env: Env, mem: Memory, l: Loc, fuel: nat)
    requires WellTyped(env, mem) && CallReset(env, mem, l, fuel).Finished?
    ensures var once := CallReset(env, mem, l, fuel);
      WellTyped(env, once.mem) && CallReset(env, once.mem, l, fuel) == once
  {
    var touched := Touched(env, mem, l, fuel);
    ResetMeets(env, mem, l, fuel);
    SweepWellTyped(env, mem, touched);
    SweepKeepsTouched(env, mem, touched, l, fuel);
    SweepKeepsTermination(env, mem, touched, l, fuel);
    ResetMeets(env, Sweep(mem, touched), l, fuel);
    SweepTwice(mem, touched, touched);
    assert touched + touched == touched;
  }

  lemma {:induction false} MemberIsTouched(env: Env, mem: Memory, ms: seq<Member>, i: nat, l: Loc, fuel: nat)
    requires fuel > 0 && i < |ms|
    ensures
      var f := FieldLoc(mem, l, ms[i]);
      var d := Delegate(env, mem, f, ms[i].typ);
      && Direct(env, mem, f, ms[i].typ) <= TouchedByMembers(env, mem, ms, l, fuel)
      && (d.Some? ==> Touched(env, mem, d.value, fuel - 1) <= TouchedByMembers(env, mem, ms, l, fuel))
  {
    var n := |ms| - 1;
    if i == n {
    } else {
      assert ms[..n][i] == ms[i];
      MemberIsTouched(env, mem, ms[..n], i, l, fuel);
    }
  }

  /** The types of variables that reset code writes to: itself, or through a pointer. */
  predicate Written(env: Env, t: TypeExpr) {
    env.Primitive(t) || t.SliceOf? || t.InterfaceType? || t.ChanOf? || t.FuncType?
  }

  predicate MayChange(env: Env, mem: Memory, l: Loc) {
    (l in mem && mem[l].MapObject?) || (l in env.types && Written(env, env.types[l]))
  }

  /** The members of the struct at l, if it has a generated Reset. */
  function MembersAt(env: Env, l: Loc): seq<Member> {
    if l in env.types && env.HasReset(env.types[l]) then env.decls[env.types[l]] else []
  }

  lemma DirectMayChange(env: Env, mem: Memory, m: Member, l: Loc)
    requires WellTyped(env, mem) && MemberTyped(env, mem, m, l)
    ensures forall x :: x in Direct(env, mem, FieldLoc(mem, l, m), m.typ) ==> MayChange(env, mem, x)
  {
    var f := FieldLoc(mem, l, m);
    assert OfType(env, mem, mem[f], m.typ);
  }

  /** Nothing but map objects and variables of a written type is ever touched. */
  lemma {:induction false} TouchedMayChange(env: Env, mem: Memory, l: Loc, fuel: nat)
    requires WellTyped(env, mem)
    ensures forall x :: x in Touched(env, mem, l, fuel) ==> MayChange(env, mem, x)
    decreases fuel, 1, 0
  {
    if l in env.types && env.HasReset(env.types[l]) && fuel > 0 {
      assert OfType(env, mem, mem[l], env.types[l]);
      TouchedByMembersMayChange(env, mem, env.decls[env.types[l]], l, fuel);
    }
  }

  lemma {:induction false} TouchedByMembersMayChange(env: Env, mem: Memory, ms: seq<Member>, l: Loc, fuel: nat)
    requires fuel > 0 && WellTyped(env, mem)
    requires forall i :: 0 <= i < |ms| ==> MemberTyped(env, mem, ms[i], l)
    ensures forall x :: x in TouchedByMembers(env, mem, ms, l, fuel) ==> MayChange(env, mem, x)
    decreases fuel, 0, |ms|
  {
    if ms == [] {
    } else {
      var m := ms[|ms| - 1];
      TouchedByMembersMayChange(env, mem, ms[..|ms| - 1], l, fuel);
      DirectMayChange(env, mem, m, l);
      var d := Delegate(env, mem, FieldLoc(mem, l, m), m.typ);
      if d.Some? {
        TouchedMayChange(env, mem, d.value, fuel - 1);
      }
    }
  }

  /** One delegation of Reset: from the struct at l to the struct at next. */
  predicate Delegates(env: Env, mem: Memory, l: Loc, next: Loc) {
    l in env.types && env.HasReset(env.types[l]) && next in env.types && env.HasReset(env.types[next]) &&
    exists i :: 0 <= i < |env.decls[env.types[l]]| &&
      Delegate(env, mem, FieldLoc(mem, l, env.decls[env.types[l]][i]), env.decls[env.types[l]][i].typ) == Some(next)
  }

  predicate IsChain(env: Env, mem: Memory, chain: seq<Loc>) {
    && chain != []
    && chain[0] in env.types && env.HasReset(env.types[chain[0]])
    && forall k :: 0 <= k < |chain| - 1 ==> Delegates(env, mem, chain[k], chain[k + 1])
  }

  /**
   Where delegation goes: to a member of a named type that has a Reset, of this package or another,
   and to what a non-nil pointer to such a type points to.
   */
  lemma DelegatesTo(env: Env, mem: Memory, l: Loc, i: nat)
    requires WellTyped(env, mem) && i < |MembersAt(env, l)|
    ensures
      var m := MembersAt(env, l)[i];
      var f := FieldLoc(mem, l, m);
      && (m.typ in env.decls && (m.typ.Selector? || (m.typ.Ident? && m.typ.name !in env.zeros)) ==>
            Delegates(env, mem, l, f) && IsChain(env, mem, [l, f]))
      && (m.typ.Star? && m.typ.inner in env.decls && f in mem && mem[f].Pointer? && mem[f].target.Some? &&
          (m.typ.inner.Selector? || (m.typ.inner.Ident? && m.typ.inner.name !in env.zeros)) ==>
            Delegates(env, mem, l, mem[f].target.value) && IsChain(env, mem, [l, mem[f].target.value]))
  {
    var ms := env.decls[env.types[l]];
    var m := ms[i];
    assert OfType(env, mem, mem[l], env.types[l]);
    var f := FieldLoc(mem, l, m);
    assert OfType(env, mem, mem[f], m.typ);
    var d := Delegate(env, mem, f, m.typ);
    if d.Some? {
      assert Delegate(env, mem, FieldLoc(mem, l, ms[i]), ms[i].typ) == Some(d.value);
      if d.value in env.types && env.HasReset(env.types[d.value]) {
        assert Delegates(env, mem, l, d.value);
      }
    }
  }

  lemma ChainFrom(env: Env, mem: Memory, chain: seq<Loc>, i: nat, j: nat)
    requires IsChain(env, mem, chain) && i < j <= |chain|
    ensures IsChain(env, mem, chain[i..j])
  {
    assert i > 0 ==> Delegates(env, mem, chain[i - 1], chain[i]);
    var part := chain[i..j];
    forall k | 0 <= k < |part| - 1 ensures Delegates(env, mem, part[k], part[k + 1]) {
      assert Delegates(env, mem, chain[i + k], chain[i + k + 1]);
    }
  }

  lemma DelegationStep(env: Env, mem: Memory, l: Loc, next: Loc, fuel: nat)
    requires Delegates(env, mem, l, next) && Terminates(env, mem, l, fuel)
    ensures fuel > 0 && Terminates(env, mem, next, fuel - 1)
    ensures Touched(env, mem, next, fuel - 1) <= Touched(env, mem, l, fuel)
  {
    var ms := env.decls[env.types[l]];
    var i :| 0 <= i < |ms| && Delegate(env, mem, FieldLoc(mem, l, ms[i]), ms[i].typ) == Some(next);
    assert MemberTerminates(env, mem, ms[i], l, fuel);
    MemberIsTouched(env, mem, ms, i, l, fuel);
  }

  /** What Reset does, it does to every struct along a chain, which is shorter than its call depth. */
  lemma {:induction false} AlongChain(env: Env, mem: Memory, chain: seq<Loc>, k: nat, fuel: nat)
    requires IsChain(env, mem, chain) && Terminates(env, mem, chain[0], fuel) && k < |chain|
    ensures k < fuel && Terminates(env, mem, chain[k], fuel - k)
    ensures Touched(env, mem, chain[k], fuel - k) <= Touched(env, mem, chain[0], fuel)
    decreases k
  {
    if k == 0 {
    } else {
      AlongChain(env, mem, chain, k - 1, fuel);
      assert Delegates(env, mem, chain[k - 1], chain[k]);
      DelegationStep(env, mem, chain[k - 1], chain[k], fuel - (k - 1));
    }
  }

  /** What a finished Reset has made of the member m of a struct at l. */
  predicate MemberReset(env: Env, mem: Memory, after: Memory, l: Loc, m: Member) {
    var f := FieldLoc(mem, l, m);
    && f in mem && f in after
    && (env.Primitive(m.typ) ==> after[f] == Zero(env.zeros[m.typ.name]))
    && (m.typ.SliceOf? ==> mem[f].Slice? && after[f] == mem[f].(length := 0))
    && (m.typ.InterfaceType? || m.typ.ChanOf? || m.typ.FuncType? ==> after[f] == Reference(None))
    && (m.typ.MapOf? && mem[f].MapRef? && mem[f].target.Some? ==>
          mem[f].target.value in after && after[mem[f].target.value] == MapObject(map[]))
    && (m.typ.Star? && mem[f].Pointer? && mem[f].target.Some? && env.Primitive(m.typ.inner) ==>
          mem[f].target.value in after && after[mem[f].target.value] == Zero(env.zeros[m.typ.inner.name]))
    && (!Written(env, m.typ) && !mem[f].MapObject? ==> after[f] == mem[f])
  }

  /**
   Read field by field, for the struct itself and for every struct that a chain of delegations
   reaches: a member of a primitive type is zero, a slice is empty over the same backing array,
   a map is empty, an interface, channel or function is nil, a primitive behind a non-nil
   pointer is zero; a member of any other type (a fixed array, a named type without Reset, an
   unsupported type, a pointer, a map reference) has kept its value. A chain of one location
   is the receiver.
   */
  lemma MemberIsReset(env: Env, mem: Memory, chain: seq<Loc>, i: nat, fuel: nat)
    requires WellTyped(env, mem) && IsChain(env, mem, chain)
    requires CallReset(env, mem, chain[0], fuel).Finished?
    requires i < |MembersAt(env, chain[|chain| - 1])|
    ensures
      var l := chain[|chain| - 1];
      MemberReset(env, mem, CallReset(env, mem, chain[0], fuel).mem, l, MembersAt(env, l)[i])
  {
    var k := |chain| - 1;
    var l, ms := chain[k], MembersAt(env, chain[k]);
    ResetMeets(env, mem, chain[0], fuel);
    AlongChain(env, mem, chain, k, fuel);
    assert OfType(env, mem, mem[l], env.types[l]);
    MemberIsTouched(env, mem, ms, i, l, fuel - k);
    TouchedMayChange(env, mem, chain[0], fuel);
    MemberSwept(env, mem, Touched(env, mem, chain[0], fuel), l, ms[i]);
  }

  lemma MemberSwept(env: Env, mem: Memory, locs: set<Loc>, l: Loc, m: Member)
    requires WellTyped(env, mem) && MemberTyped(env, mem, m, l)
    requires Direct(env, mem, FieldLoc(mem, l, m), m.typ) <= locs
    requires forall x :: x in locs ==> MayChange(env, mem, x)
    ensures MemberReset(env, mem, Sweep(mem, locs), l, m)
  {
    var f := FieldLoc(mem, l, m);
    assert OfType(env, mem, mem[f], m.typ);
    if m.typ.Star? && mem[f].target.Some? {
      assert OfType(env, mem, mem[mem[f].target.value], m.typ.inner);
    }
    assert f in locs ==> MayChange(env, mem, f);
  }

  // ---- When it finishes --------------------------------------------------------------------------

  lemma {:induction false} LongChain(env: Env, mem: Memory, l: Loc, fuel: nat) returns (chain: seq<Loc>)
    requires !Terminates(env, mem, l, fuel)
    ensures IsChain(env, mem, chain) && chain[0] == l && |chain| == fuel + 1
    decreases fuel
  {
    if fuel == 0 {
      chain := [l];
    } else {
      var ms := env.decls[env.types[l]];
      var i :| 0 <= i < |ms| && !MemberTerminates(env, mem, ms[i], l, fuel);
      var next := Delegate(env, mem, FieldLoc(mem, l, ms[i]), ms[i].typ).value;
      var rest := LongChain(env, mem, next, fuel - 1);
      assert Delegates(env, mem, l, next);
      chain := [l] + rest;
    }
  }

  predicate NoRepeat(chain: seq<Loc>) {
    forall i, j :: 0 <= i < j < |chain| ==> chain[i] != chain[j]
  }

  /** No chain of delegations from l comes back to a struct it has passed. */
  ghost predicate Acyclic(env: Env, mem: Memory, l: Loc) {
    forall chain :: IsChain(env, mem, chain) && chain[0] == l ==> NoRepeat(chain)
  }

  /** Distinct locations of a set are no more than the set has. */
  lemma {:induction false} Pigeonhole(chain: seq<Loc>, locs: set<Loc>)
    requires NoRepeat(chain) && forall i :: 0 <= i < |chain| ==> chain[i] in locs
    ensures |chain| <= |locs|
    decreases chain
  {
    if chain == [] {
    } else {
      var n := |chain| - 1;
      Pigeonhole(chain[..n], locs - {chain[n]});
    }
  }

  lemma {:induction false} CycleNotTerminating(env: Env, mem: Memory, cycle: seq<Loc>, k: nat, fuel: nat)
    requires |cycle| > 1 && IsChain(env, mem, cycle) && cycle[|cycle| - 1] == cycle[0] && k < |cycle|
    ensures !Terminates(env, mem, cycle[k], fuel)
    decreases fuel
  {
    var j := if k == |cycle| - 1 then 0 else k;
    assert Delegates(env, mem, cycle[j], cycle[j + 1]);
    if Terminates(env, mem, cycle[k], fuel) {
      DelegationStep(env, mem, cycle[j], cycle[j + 1], fuel);
      CycleNotTerminating(env, mem, cycle, j + 1, fuel - 1);
    }
  }

  /** Where delegations lead back to a struct already visited, the call never finishes, at any depth. */
  lemma CyclesNeverFinish(env: Env, mem: Memory, chain: seq<Loc>, i: nat, j: nat, fuel: nat)
    requires WellTyped(env, mem) && IsChain(env, mem, chain)
    requires i < j < |chain| && chain[i] == chain[j]
    ensures CallReset(env, mem, chain[0], fuel) == OutOfFuel
  {
    ResetMeets(env, mem, chain[0], fuel);
    if Terminates(env, mem, chain[0], fuel) {
      AlongChain(env, mem, chain, i, fuel);
      ChainFrom(env, mem, chain, i, j + 1);
      CycleNotTerminating(env, mem, chain[i..j + 1], 0, fuel - i);
    }
  }

  lemma AcyclicFinishes(env: Env, mem: Memory, l: Loc)
    requires WellTyped(env, mem) && Acyclic(env, mem, l)
    ensures CallReset(env, mem, l, |env.types.Keys|).Finished?
  {
    ResetMeets(env, mem, l, |env.types.Keys|);
    if !Terminates(env, mem, l, |env.types.Keys|) {
      var chain := LongChain(env, mem, l, |env.types.Keys|);
      forall k | 0 <= k < |chain| ensures chain[k] in env.types.Keys {
        assert k > 0 ==> Delegates(env, mem, chain[k - 1], chain[k]);
      }
      Pigeonhole(chain, env.types.Keys);
    }
  }

  /**
   The generated method, on a receiver that may be nil, finishes if and only if no chain of
   delegations from it comes back to a struct it has passed; its calls are then nested no
   deeper than there are variables. On nil it changes nothing, and it never panics.
   */
  lemma FinishesIffAcyclic(env: Env, mem: Memory, receiver: Option<Loc>)
    requires WellTyped(env, mem)
    ensures (receiver.Some? ==> Acyclic(env, mem, receiver.value)) <==>
            exists fuel: nat :: Reset(env, mem, receiver, fuel).Finished?
    ensures (receiver.Some? ==> Acyclic(env, mem, receiver.value)) ==>
            Reset(env, mem, receiver, |env.types.Keys|).Finished?
    ensures forall fuel: nat ::
      !Reset(env, mem, receiver, fuel).Panic? && (receiver.None? ==> Reset(env, mem, receiver, fuel) == Finished(mem))
  {
    var bound: nat := |env.types.Keys|;
    if receiver.None? {
      assert Reset(env, mem, receiver, bound).Finished?;
    } else {
      var l := receiver.value;
      forall fuel: nat ensures !Reset(env, mem, receiver, fuel).Panic? {
        ResetMeets(env, mem, l, fuel);
      }
      if Acyclic(env, mem, l) {
        AcyclicFinishes(env, mem, l);
        assert Reset(env, mem, receiver, bound).Finished?;
      } else {
        CyclicNever(env, mem, l);
      }
    }
  }

  lemma CyclicNever(env: Env, mem: Memory, l: Loc)
    requires WellTyped(env, mem) && !Acyclic(env, mem, l)
    ensures forall fuel: nat :: !Reset(env, mem, Some(l), fuel).Finished?
  {
    var chain :| IsChain(env, mem, chain) && chain[0] == l && !NoRepeat(chain);
    var i, j :| 0 <= i < j < |chain| && chain[i] == chain[j];
    forall fuel: nat ensures !Reset(env, mem, Some(l), fuel).Finished? {
      CyclesNeverFinish(env, mem, chain, i, j, fuel);
    }
  }
}
