/**
 What generateSource (cmd/reset/main.go) emits for the fields of one struct, told by the
 declared names alone: which names, in which order, and what running the output does to them.
 */
module ResetSource {
  import opened Model
  import opened ResetGen

  /** The place of a name: its field declaration, and its position in it. */
  datatype Place = Place(field: nat, name: nat)

  /** Place a comes before place b in the source. */
  predicate Before(a: Place, b: Place) {
    a.field < b.field || (a.field == b.field && a.name < b.name)
  }

  /** An embedded T, pkg.T or pointer to one is a field called T. */
  predicate Embeds(t: TypeExpr, name: string) {
    (t.Ident? && t.name == name) || (t.Selector? && t.name == name) || (t.Star? && Embeds(t.inner, name))
  }

  /** The struct declares a field of this name at this place. */
  predicate Declares(fields: seq<Field>, at: Place, name: string) {
    at.field < |fields| &&
    var f := fields[at.field];
    if f.names != [] then at.name < |f.names| && f.names[at.name] == name
    else at.name == 0 && Embeds(f.typ, name)
  }

  /** The name declared there calls for this statement. */
  predicate CallsFor(zeros: Zeros, fields: seq<Field>, at: Place, name: string, stmt: Stmt) {
    Declares(fields, at, name) && ResetLine(zeros, name, fields[at.field].typ) == Some(stmt)
  }

  ghost predicate Yields(zeros: Zeros, fields: seq<Field>, at: Place, stmt: Stmt) {
    exists name :: CallsFor(zeros, fields, at, name, stmt)
  }

  /** Line by line: places strictly in order, each with its statement, and no statement forgotten. */
  ghost predicate Traces(zeros: Zeros, fields: seq<Field>, lines: seq<Stmt>, places: seq<Place>) {
    && |places| == |lines|
    && (forall i, j :: 0 <= i < j < |places| ==> Before(places[i], places[j]))
    && (forall i :: 0 <= i < |places| ==> Yields(zeros, fields, places[i], lines[i]))
    && (forall at, stmt :: Yields(zeros, fields, at, stmt) ==> at in places)
  }

  /** The lines are the statements of all declared names, once each, in source order. */
  ghost predicate FromSource(zeros: Zeros, fields: seq<Field>, lines: seq<Stmt>) {
    exists places :: Traces(zeros, fields, lines, places)
  }

  // ---- The names of one field ----------------------------------------------------------------------

  lemma {:induction false} EmbeddedName(t: TypeExpr, name: string)
    ensures EmbeddedTypeName(t) == Some(name) <==> Embeds(t, name)
    decreases t
  {
    match t {
      case Star(inner) => EmbeddedName(inner, name);
      case _ =>
    }
  }

  /** FieldNames lists exactly the declared names, at their positions. */
  lemma NamesDeclared(fields: seq<Field>, at: Place, name: string)
    ensures Declares(fields, at, name) <==>
      at.field < |fields| && at.name < |FieldNames(fields[at.field])| && FieldNames(fields[at.field])[at.name] == name
  {
    if at.field < |fields| {
      EmbeddedName(fields[at.field].typ, name);
    }
  }

  // ---- The statements come from the names ------------------------------------------------------------

  /** Places of the first n fields and the first k names of the next one. */
  predicate Early(at: Place, n: nat, k: nat) {
    at.field < n || (at.field == n && at.name < k)
  }

  /** As Traces, for the names that come early. */
  ghost predicate TracesTo(zeros: Zeros, fields: seq<Field>, lines: seq<Stmt>, places: seq<Place>, n: nat, k: nat) {
    && |places| == |lines|
    && (forall i :: 0 <= i < |places| ==> Early(places[i], n, k))
    && (forall i, j :: 0 <= i < j < |places| ==> Before(places[i], places[j]))
    && (forall i :: 0 <= i < |places| ==> Yields(zeros, fields, places[i], lines[i]))
    && (forall at, stmt :: Yields(zeros, fields, at, stmt) && Early(at, n, k) ==> at in places)
  }

  /** One more name of a field, with its statement if it calls for one. */
  lemma OneMoreName(zeros: Zeros, fields: seq<Field>, lines: seq<Stmt>, places: seq<Place>, n: nat, k: nat)
    returns (more: seq<Place>)
    requires n < |fields| && k < |FieldNames(fields[n])| && TracesTo(zeros, fields, lines, places, n, k)
    ensures
      var line := ResetLine(zeros, FieldNames(fields[n])[k], fields[n].typ);
      TracesTo(zeros, fields, lines + if line.Some? then [line.value] else [], more, n, k + 1)
  {
    var here, name := Place(n, k), FieldNames(fields[n])[k];
    var line := ResetLine(zeros, name, fields[n].typ);
    NamesDeclared(fields, here, name);
    OnlyName(fields, here, name);
    if line.Some? {
      more := places + [here];
      assert CallsFor(zeros, fields, here, name, line.value);
      assert Yields(zeros, fields, here, line.value);
      Extended(zeros, fields, lines, places, n, k, line.value);
    } else {
      more := places;
      assert lines + [] == lines;
      forall at, stmt | Yields(zeros, fields, at, stmt) && Early(at, n, k + 1) ensures at in more {
        var other :| CallsFor(zeros, fields, at, other, stmt);
        assert at == here ==> other == name;
        assert Early(at, n, k);
      }
    }
  }

  /** A place declares one name. */
  lemma OnlyName(fields: seq<Field>, at: Place, name: string)
    requires Declares(fields, at, name)
    ensures forall other :: Declares(fields, at, other) ==> other == name
  {
    forall other | Declares(fields, at, other) ensures other == name {
      NamesDeclared(fields, at, name);
      NamesDeclared(fields, at, other);
    }
  }

  lemma Extended(zeros: Zeros, fields: seq<Field>, lines: seq<Stmt>, places: seq<Place>, n: nat, k: nat, stmt: Stmt)
    requires TracesTo(zeros, fields, lines, places, n, k)
    requires Yields(zeros, fields, Place(n, k), stmt)
    ensures TracesTo(zeros, fields, lines + [stmt], places + [Place(n, k)], n, k + 1)
  {
    var more, out := places + [Place(n, k)], lines + [stmt];
    forall i | 0 <= i < |more| ensures Yields(zeros, fields, more[i], out[i]) {
      assert i < |places| ==> more[i] == places[i] && out[i] == lines[i];
    }
    forall at, other | Yields(zeros, fields, at, other) && Early(at, n, k + 1) ensures at in more {
      assert Early(at, n, k) || at == Place(n, k);
      if Early(at, n, k) {
        assert at in places;
      } else {
        assert more[|places|] == at;
      }
    }
  }

  /** The statements of the first k names of field n, after those of the fields before it. */
  lemma {:induction false} NamesTraced(zeros: Zeros, fields: seq<Field>, front: seq<Stmt>, places: seq<Place>, n: nat, k: nat)
    returns (more: seq<Place>)
    requires n < |fields| && k <= |FieldNames(fields[n])| && TracesTo(zeros, fields, front, places, n, 0)
    ensures TracesTo(zeros, fields, front + Lines(zeros, MembersOf(fields[n])[..k]), more, n, k)
  {
    var ms := MembersOf(fields[n]);
    if k == 0 {
      assert front + Lines(zeros, ms[..0]) == front;
      more := places;
    } else {
      var before := NamesTraced(zeros, fields, front, places, n, k - 1);
      more := OneMoreName(zeros, fields, front + Lines(zeros, ms[..k - 1]), before, n, k - 1);
      LinesSnoc(zeros, ms, front, k);
    }
  }

  lemma LinesSnoc(zeros: Zeros, ms: seq<Member>, front: seq<Stmt>, k: nat)
    requires 0 < k <= |ms|
    ensures
      var line := ResetLine(zeros, ms[k - 1].name, ms[k - 1].typ);
      front + Lines(zeros, ms[..k]) == front + Lines(zeros, ms[..k - 1]) + if line.Some? then [line.value] else []
  {
    assert ms[..k][..k - 1] == ms[..k - 1];
  }

  /** All names of a field done: the next field is due. */
  lemma NextField(zeros: Zeros, fields: seq<Field>, lines: seq<Stmt>, places: seq<Place>, n: nat)
    requires n < |fields| && TracesTo(zeros, fields, lines, places, n, |FieldNames(fields[n])|)
    ensures TracesTo(zeros, fields, lines, places, n + 1, 0)
  {
    forall at, stmt | Yields(zeros, fields, at, stmt) && Early(at, n + 1, 0) ensures at in places {
      var name :| CallsFor(zeros, fields, at, name, stmt);
      NamesDeclared(fields, at, name);
      assert Early(at, n, |FieldNames(fields[n])|);
    }
  }

  lemma {:induction false} FieldsTraced(zeros: Zeros, fields: seq<Field>, n: nat) returns (places: seq<Place>)
    requires n <= |fields|
    ensures TracesTo(zeros, fields, Lines(zeros, Members(fields[..n])), places, n, 0)
  {
    if n == 0 {
      places := [];
    } else {
      var before := FieldsTraced(zeros, fields, n - 1);
      var ms := MembersOf(fields[n - 1]);
      places := NamesTraced(zeros, fields, Lines(zeros, Members(fields[..n - 1])), before, n - 1, |ms|);
      assert ms[..|ms|] == ms;
      LinesStep(zeros, fields, n - 1);
      NextField(zeros, fields, Lines(zeros, Members(fields[..n])), places, n - 1);
    }
  }

  lemma LinesFromSource(zeros: Zeros, fields: seq<Field>)
    ensures FromSource(zeros, fields, Lines(zeros, Members(fields)))
  {
    var places := FieldsTraced(zeros, fields, |fields|);
    assert fields[..|fields|] == fields;
    forall at, stmt | Yields(zeros, fields, at, stmt) ensures at in places {
      var name :| CallsFor(zeros, fields, at, name, stmt);
      assert Early(at, |fields|, 0);
    }
    assert Traces(zeros, fields, Lines(zeros, Members(fields)), places);
  }

  /** Left alone are fixed arrays and the types the generator does not know; every other field gets a statement. */
  lemma SkippedTypes(zeros: Zeros, name: string, t: TypeExpr)
    ensures ResetLine(zeros, name, t).None? <==> t.ArrayOf? || t.OtherType?
  {
  }

  // ---- The generator with its own table -----------------------------------------------------------------

  /** generateSource for one struct. */
  method GenerateSource(fields: seq<Field>) returns (lines: seq<Stmt>)
    ensures lines == Lines(PRIMITIVE_ZERO, Members(fields))
    ensures FromSource(PRIMITIVE_ZERO, fields, lines)
  {
    lines := GenerateLines(PRIMITIVE_ZERO, fields);
    LinesFromSource(PRIMITIVE_ZERO, fields);
  }

  /** Go's predeclared numeric types: the integers with and without sign, and the floating and complex ones. */
  predicate Numeric(name: string) {
    || name in ["int", "int8", "int16", "int32", "int64", "rune"]
    || name in ["uint", "uint8", "uint16", "uint32", "uint64", "uintptr", "byte"]
    || name in ["float32", "float64", "complex64", "complex128"]
  }

  /** The table holds every predeclared value type, with its zero value, and nothing else. */
  lemma TableIsRight(name: string)
    ensures name in PRIMITIVE_ZERO <==> Numeric(name) || name == "bool" || name == "string"
    ensures name in PRIMITIVE_ZERO ==>
      Zero(PRIMITIVE_ZERO[name]) ==
      if name == "bool" then Boolean(false) else if name == "string" then Text("") else Number(0)
  {
  }

  // ---- Running the output -----------------------------------------------------------------------------

  lemma {:induction false} DeclaredMember(fields: seq<Field>, at: Place, name: string) returns (i: nat)
    requires Declares(fields, at, name)
    ensures i < |Members(fields)| && Members(fields)[i] == Member(name, fields[at.field].typ)
  {
    var n := |fields| - 1;
    if at.field == n {
      i := InLastField(fields, at, name);
    } else {
      EarlierField(fields, at, name);
      i := DeclaredMember(fields[..n], at, name);
    }
  }

  lemma InLastField(fields: seq<Field>, at: Place, name: string) returns (i: nat)
    requires Declares(fields, at, name) && at.field == |fields| - 1
    ensures i < |Members(fields)| && Members(fields)[i] == Member(name, fields[at.field].typ)
  {
    NamesDeclared(fields, at, name);
    i := |Members(fields[..|fields| - 1])| + at.name;
  }

  lemma EarlierField(fields: seq<Field>, at: Place, name: string)
    requires Declares(fields, at, name) && at.field < |fields| - 1
    ensures Declares(fields[..|fields| - 1], at, name)
  {
  }

  /**
   For a struct declared by these fields: running the generator's output on it, if it finishes,
   resets the variable of every declared name as its type directs.
   */
  lemma OutputResets(env: Env, mem: Memory, fields: seq<Field>, lines: seq<Stmt>, l: Loc, fuel: nat, at: Place, name: string)
    requires WellTyped(env, mem) && env.zeros == PRIMITIVE_ZERO && lines == Lines(PRIMITIVE_ZERO, Members(fields))
    requires l in env.types && env.HasReset(env.types[l]) && env.decls[env.types[l]] == Members(fields)
    requires fuel > 0 && ExecAll(env, mem, lines, l, fuel).Finished? && Declares(fields, at, name)
    ensures MemberReset(env, mem, ExecAll(env, mem, lines, l, fuel).mem, l, Member(name, fields[at.field].typ))
  {
    var i := DeclaredMember(fields, at, name);
    assert CallReset(env, mem, l, fuel) == ExecAll(env, mem, lines, l, fuel);
    MemberIsReset(env, mem, [l], i, fuel);
  }
}
