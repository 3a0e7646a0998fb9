/** Properties of the translation engine of main.go, stated over the
    functions that specify it (Graphql2Sadl.Translate and its helpers). */
module Graphql2SadlProperties {
  import opened GraphQLAst
  import opened Sadl
  import opened Graphql2Sadl

  // ---------------------------------------------------------------------
  // Helpers
  // ---------------------------------------------------------------------

  /** convertTypeName maps the four GraphQL built-in scalar names by the
      table and leaves every other name alone; no result is one of the four. */
  lemma ConvertTypeNameMapping(n: string)
    ensures n in PrimitiveTypes ==> ConvertTypeName(n) == PrimitiveTypes[n]
    ensures n !in PrimitiveTypes ==> ConvertTypeName(n) == n
    ensures ConvertTypeName(n) !in PrimitiveTypes
  {
  }

  /** convertTypeName maps into names it leaves alone, so applying it twice
      is applying it once. */
  lemma ConvertTypeNameIdempotent(n: string)
    ensures ConvertTypeName(ConvertTypeName(n)) == ConvertTypeName(n)
  {
    ConvertTypeNameMapping(n);
    ConvertTypeNameMapping(ConvertTypeName(n));
  }

  /** Folding newlines twice is folding them once. */
  lemma CommentValueIdempotent(s: string)
    ensures CommentValue(CommentValue(s)) == CommentValue(s)
  {
    var c := CommentValue(s);
    assert forall i | 0 <= i < |c| :: CommentValue(c)[i] == c[i];
  }

  /** A description is kept verbatim exactly when it has no newline. */
  lemma CommentValueUnchangedIff(s: string)
    ensures CommentValue(s) == s <==> '\n' !in s
  {
    if '\n' in s {
      assert '\n' !in CommentValue(s);
    } else {
      assert forall i | 0 <= i < |s| :: CommentValue(s)[i] == s[i];
    }
  }

  /** Folding works character by character, so it distributes over
      concatenation. */
  lemma CommentValueConcat(a: string, b: string)
    ensures CommentValue(a + b) == CommentValue(a) + CommentValue(b)
  {
    var l, r := CommentValue(a + b), CommentValue(a) + CommentValue(b);
    forall i | 0 <= i < |l| ensures l[i] == r[i] {
      if i < |a| { assert (a + b)[i] == a[i]; } else { assert (a + b)[i] == b[i - |a|]; }
    }
  }

  // ---------------------------------------------------------------------
  // Struct fields
  // ---------------------------------------------------------------------

  /** A field translates exactly when its type has a supported shape, and
      never raises an error; it keeps the field's name and folded comment;
      it is required iff its outermost type is non-null; items are set only
      on arrays. */
  lemma ConvertFieldSpec(f: FieldDefinition)
    ensures ConvertField(f).Ok? <==> SupportedFieldType(f.ty)
    ensures ConvertField(f).Ok? ==>
              ConvertField(f).value.name == f.name && ConvertField(f).value.comment == DescriptionComment(f.description)
    ensures ConvertField(f).Ok? ==> (ConvertField(f).value.required <==> f.ty.NonNull?)
    ensures ConvertField(f).Ok? && ConvertField(f).value.items != "" ==> ConvertField(f).value.typ == ArrayType
  {
  }

  /** A named type, optionally under one non-null wrapper, keeps its
      (converted) name and has no items. */
  lemma NamedFieldShape(f: FieldDefinition, n: string)
    requires f.ty == Named(n) || f.ty == NonNull(Named(n))
    ensures ConvertField(f) ==
      Ok(StructFieldDef(f.name, DescriptionComment(f.description), ConvertTypeName(n), "", f.ty.NonNull?))
  {
  }

  /** A list of a named type, of either nullability, optionally under one
      non-null wrapper, is an array of the (converted) element name. */
  lemma ListFieldShape(f: FieldDefinition, n: string)
    requires f.ty in {List(Named(n)), List(NonNull(Named(n))), NonNull(List(Named(n))), NonNull(List(NonNull(Named(n))))}
    ensures ConvertField(f) ==
      Ok(StructFieldDef(f.name, DescriptionComment(f.description), ArrayType, ConvertTypeName(n), f.ty.NonNull?))
  {
  }

  /** Under an outer non-null, a list of non-null lists is let through, with
      the array marker itself as the element type. */
  lemma NonNullListOfNonNullList(f: FieldDefinition, e: Type)
    requires f.ty == NonNull(List(NonNull(List(e))))
    ensures ConvertField(f) ==
      Ok(StructFieldDef(f.name, DescriptionComment(f.description), ArrayType, ArrayType, true))
  {
  }

  /** The shapes that panic, and with which message. */
  lemma PanicShapes(f: FieldDefinition)
    ensures f.ty.List? && f.ty.elem.List? ==> ConvertField(f) == Fail(Panic(ListMsg))
    ensures f.ty.List? && f.ty.elem.NonNull? && !f.ty.elem.inner.Named? ==> ConvertField(f) == Fail(Panic(InlineListMsg))
    ensures f.ty.NonNull? && f.ty.inner.List? && f.ty.inner.elem.List? ==> ConvertField(f) == Fail(Panic(InlineListMsg))
    ensures f.ty.NonNull? && f.ty.inner.List? && f.ty.inner.elem.NonNull? && f.ty.inner.elem.inner.NonNull? ==>
              ConvertField(f) == Fail(Panic(FixMeMsg))
    ensures f.ty.NonNull? && f.ty.inner.NonNull? ==> ConvertField(f) == Fail(Panic(FixMeMsg))
  {
  }

  // ---------------------------------------------------------------------
  // Definitions
  // ---------------------------------------------------------------------

  /** A definition adds at most one type: exactly one for an enum, a union,
      or an object that is not ignored and translates. It raises an error
      exactly for a scalar outside the allow-list or an unknown kind; any
      other failure is a struct field's panic. */
  lemma ContributionShape(d: Definition, ignore: set<string>)
    ensures var r := Contribution(d, ignore);
      (r.Ok? ==> |r.value| <= 1) &&
      (r.Ok? && |r.value| == 1 <==>
         d.EnumDef? || d.UnionDef? || (d.ObjectDef? && d.obj.name !in ignore && StructTypeDef(d.obj).Ok?)) &&
      (r.Fail? && r.failure.Error? <==> (d.ScalarDef? && !AllowedScalar(d.name)) || d.OtherDef?) &&
      (r.Fail? && r.failure.Panic? <==> d.ObjectDef? && d.obj.name !in ignore && StructTypeDef(d.obj).Fail?)
  {
  }

  // ---------------------------------------------------------------------
  // A reference description of the pass, by position in the document
  // ---------------------------------------------------------------------

  /** Every root name declared by the schema definitions in `defs`. */
  function DeclaredRoots(defs: seq<Definition>): set<string>
    decreases |defs|
  {
    if defs == [] then {} else RootsOf(defs[0]) + DeclaredRoots(defs[1..])
  }

  /** The contribution of each definition, given the names declared before
      it (on top of `ignore`). */
  function Contributions(defs: seq<Definition>, ignore: set<string>): seq<Outcome<seq<TypeDef>>>
  {
    seq(|defs|, i requires 0 <= i < |defs| => Contribution(defs[i], ignore + DeclaredRoots(defs[..i])))
  }

  predicate AllOk<T>(os: seq<Outcome<T>>)
  {
    forall i | 0 <= i < |os| :: os[i].Ok?
  }

  /** Index k holds the first failure of `os`. */
  predicate FirstFailureAt<T>(os: seq<Outcome<T>>, k: int)
  {
    0 <= k < |os| && os[k].Fail? && forall j | 0 <= j < k :: os[j].Ok?
  }

  function Flatten<T>(os: seq<Outcome<seq<T>>>): seq<T>
    requires AllOk(os)
    decreases |os|
  {
    if os == [] then [] else os[0].value + Flatten(os[1..])
  }

  lemma {:induction false} ContributionsCons(defs: seq<Definition>, ignore: set<string>)
    requires defs != []
    ensures Contributions(defs, ignore) ==
              [Contribution(defs[0], ignore)] + Contributions(defs[1..], ignore + RootsOf(defs[0]))
  {
    var cs, rest := Contributions(defs, ignore), Contributions(defs[1..], ignore + RootsOf(defs[0]));
    assert defs[..0] == [];
    assert ignore + {} == ignore;
    forall i | 1 <= i < |defs|
      ensures cs[i] == rest[i - 1]
    {
      var p := defs[..i];
      assert p[0] == defs[0] && p[1..] == defs[1..][..i - 1];
      assert DeclaredRoots(p) == RootsOf(defs[0]) + DeclaredRoots(defs[1..][..i - 1]);
      assert ignore + DeclaredRoots(p) == (ignore + RootsOf(defs[0])) + DeclaredRoots(defs[1..][..i - 1]);
    }
  }

  lemma AllOkCons<T>(x: Outcome<T>, rest: seq<Outcome<T>>)
    ensures AllOk([x] + rest) <==> x.Ok? && AllOk(rest)
  {
    var os := [x] + rest;
    if x.Ok? && AllOk(rest) {
      forall i | 0 <= i < |os| ensures os[i].Ok? {
        if i > 0 { assert os[i] == rest[i - 1]; }
      }
    }
    if AllOk(os) {
      assert os[0] == x;
      forall i | 0 <= i < |rest| ensures rest[i].Ok? { assert os[i + 1] == rest[i]; }
    }
  }

  lemma FirstFailureCons<T>(x: Outcome<T>, rest: seq<Outcome<T>>, k: int)
    requires FirstFailureAt([x] + rest, k)
    ensures x.Fail? ==> k == 0
    ensures x.Ok? ==> k > 0 && FirstFailureAt(rest, k - 1) && ([x] + rest)[k] == rest[k - 1]
  {
    var os := [x] + rest;
    assert os[0] == x;
    if x.Ok? {
      forall j | 0 <= j < k - 1 ensures rest[j].Ok? { assert os[j + 1] == rest[j]; }
    }
  }

  lemma AppendAssociative<T>(a: seq<T>, b: seq<T>, c: seq<T>)
    ensures (a + b) + c == a + (b + c)
  {
  }

  lemma UnionAssociative<T>(a: set<T>, b: set<T>, c: set<T>)
    ensures (a + b) + c == a + (b + c)
  {
  }

  lemma FlattenCons<T>(x: Outcome<seq<T>>, rest: seq<Outcome<seq<T>>>)
    requires x.Ok? && AllOk(rest)
    ensures AllOk([x] + rest) && Flatten([x] + rest) == x.value + Flatten(rest)
  {
    AllOkCons(x, rest);
    assert ([x] + rest)[1..] == rest;
  }

  /** One iteration of the loop on a definition that contributes. */
  lemma RunStep(defs: seq<Definition>, ignore: set<string>, acc: seq<TypeDef>)
    requires defs != [] && Contribution(defs[0], ignore).Ok?
    ensures Run(defs, State(ignore, acc)) ==
              Run(defs[1..], State(ignore + RootsOf(defs[0]), acc + Contribution(defs[0], ignore).value))
  {
  }

  /** The loop stops on a definition that fails. */
  lemma RunStepFails(defs: seq<Definition>, ignore: set<string>, acc: seq<TypeDef>)
    requires defs != [] && Contribution(defs[0], ignore).Fail?
    ensures Run(defs, State(ignore, acc)) == Fail(Contribution(defs[0], ignore).failure)
  {
  }

  /** The loop from any state succeeds iff every definition's contribution
      does, and then it appends those contributions in document order and
      ends with every declared root name in the ignore set. */
  lemma {:induction false} RunSucceeds(defs: seq<Definition>, ignore: set<string>, acc: seq<TypeDef>)
    ensures Run(defs, State(ignore, acc)).Ok? <==> AllOk(Contributions(defs, ignore))
    ensures AllOk(Contributions(defs, ignore)) ==>
              Run(defs, State(ignore, acc)) ==
              Ok(State(ignore + DeclaredRoots(defs), acc + Flatten(Contributions(defs, ignore))))
    decreases |defs|
  {
    if defs == [] {
      assert ignore + {} == ignore && acc + [] == acc;
    } else {
      var c := Contribution(defs[0], ignore);
      var ignore' := ignore + RootsOf(defs[0]);
      var rest := Contributions(defs[1..], ignore');
      ContributionsCons(defs, ignore);
      AllOkCons(c, rest);
      if c.Ok? {
        var acc' := acc + c.value;
        RunStep(defs, ignore, acc);
        RunSucceeds(defs[1..], ignore', acc');
        if AllOk(rest) {
          FlattenCons(c, rest);
          AppendAssociative(acc, c.value, Flatten(rest));
          UnionAssociative(ignore, RootsOf(defs[0]), DeclaredRoots(defs[1..]));
        }
      } else {
        RunStepFails(defs, ignore, acc);
      }
    }
  }

  /** Otherwise the loop returns the failure of the first definition that fails. */
  lemma {:induction false} RunStopsAtFirstFailure(defs: seq<Definition>, ignore: set<string>, acc: seq<TypeDef>, k: int)
    requires FirstFailureAt(Contributions(defs, ignore), k)
    ensures Run(defs, State(ignore, acc)) == Fail(Contributions(defs, ignore)[k].failure)
    decreases |defs|
  {
    var d, c := defs[0], Contribution(defs[0], ignore);
    var ignore' := ignore + RootsOf(d);
    var rest := Contributions(defs[1..], ignore');
    ContributionsCons(defs, ignore);
    FirstFailureCons(c, rest, k);
    if c.Ok? {
      RunStopsAtFirstFailure(defs[1..], ignore', acc + c.value, k - 1);
    }
  }

  /** The whole pass, by position: on success the schema is named
      "generatedFromGraphQL" and its types are the contributions of the
      definitions in document order, where an object is ignored exactly when
      a schema definition EARLIER in the document names it; on failure the
      result is the failure of the first definition that fails. */
  lemma TranslateCharacterized(doc: Document)
    ensures Translate(doc).Ok? <==> AllOk(Contributions(doc.definitions, {}))
    ensures AllOk(Contributions(doc.definitions, {})) ==>
              Translate(doc) == Ok(SchemaValue(SchemaName, Flatten(Contributions(doc.definitions, {}))))
    ensures forall k | FirstFailureAt(Contributions(doc.definitions, {}), k) ::
              Translate(doc) == Fail(Contributions(doc.definitions, {})[k].failure)
  {
    var defs, cs := doc.definitions, Contributions(doc.definitions, {});
    RunSucceeds(defs, {}, []);
    if AllOk(cs) {
      var none: seq<TypeDef> := [];
      assert none + Flatten(cs) == Flatten(cs);
      assert Run(defs, State({}, [])).value.types == Flatten(cs);
    }
    forall k | FirstFailureAt(cs, k)
      ensures Translate(doc) == Fail(cs[k].failure)
    {
      RunStopsAtFirstFailure(defs, {}, [], k);
    }
  }

  /** The loop over a concatenation is the loop over the first part, then,
      if that succeeded, over the second from where the first stopped. */
  lemma {:induction false} RunAppend(defs: seq<Definition>, more: seq<Definition>, st: State)
    ensures Run(defs + more, st) ==
              match Run(defs, st)
              case Ok(st') => Run(more, st')
              case Fail(p) => Fail(p)
    decreases |defs|
  {
    if defs == [] {
      assert defs + more == more;
    } else {
      assert (defs + more)[0] == defs[0] && (defs + more)[1..] == defs[1..] + more;
      match Step(st, defs[0])
      case Ok(st1) => RunAppend(defs[1..], more, st1);
      case Fail(_) =>
    }
  }

  /** Fail fast: once a prefix of the document fails, nothing after it is
      looked at. */
  lemma FailureStopsTranslation(defs: seq<Definition>, more: seq<Definition>)
    requires Translate(Document(defs)).Fail?
    ensures Translate(Document(defs + more)) == Translate(Document(defs))
  {
    RunAppend(defs, more, State({}, []));
  }

  /** Schema, interface and input-object definitions and the allowed
      scalars add nothing and raise nothing. */
  predicate Skipped(d: Definition)
  {
    d.SchemaDef? || d.InterfaceDef? || d.InputObjectDef? || (d.ScalarDef? && AllowedScalar(d.name))
  }

  lemma {:induction false} SkippedDefinitionsOnly(defs: seq<Definition>, st: State)
    requires forall i | 0 <= i < |defs| :: Skipped(defs[i])
    ensures Run(defs, st).Ok? && Run(defs, st).value.types == st.types
    decreases |defs|
  {
    if defs != [] {
      assert Skipped(defs[0]);
      assert st.types + [] == st.types;
      SkippedDefinitionsOnly(defs[1..], State(st.ignore + RootsOf(defs[0]), st.types));
    }
  }

  /** A document of only skipped definitions gives an empty schema. */
  lemma SkippedDocumentIsEmpty(doc: Document)
    requires forall i | 0 <= i < |doc.definitions| :: Skipped(doc.definitions[i])
    ensures Translate(doc) == Ok(SchemaValue(SchemaName, []))
  {
    SkippedDefinitionsOnly(doc.definitions, State({}, []));
  }

  // ---------------------------------------------------------------------
  // The single-pass ignore set
  // ---------------------------------------------------------------------

  /** An object named as a root operation type is dropped when the schema
      definition comes first, and still emitted when it comes after. */
  lemma IgnoreAppliesOnlyAfterSchemaDefinition(o: ObjectDefinition, operation: string)
    requires StructTypeDef(o).Ok?
    ensures var sd := SchemaDef([OperationTypeDefinition(operation, o.name)]);
      Translate(Document([sd, ObjectDef(o)])) == Ok(SchemaValue(SchemaName, [])) &&
      Translate(Document([ObjectDef(o), sd])) == Ok(SchemaValue(SchemaName, [StructTypeDef(o).value]))
  {
    var sd := SchemaDef([OperationTypeDefinition(operation, o.name)]);
    var td := StructTypeDef(o).value;
    var none: seq<TypeDef> := [];
    assert o.name in RootsOf(sd);
    // Schema definition first: the object is then ignored.
    var st1 := State(RootsOf(sd), []);
    assert {} + RootsOf(sd) == RootsOf(sd) && none + none == none;
    assert Step(State({}, []), sd) == Ok(st1);
    assert Step(st1, ObjectDef(o)) == Ok(st1) by {
      assert RootsOf(sd) + {} == RootsOf(sd);
    }
    assert [sd, ObjectDef(o)][1..] == [ObjectDef(o)] && [ObjectDef(o)][1..] == [];
    assert Run([ObjectDef(o)], st1) == Run([], st1);
    assert Run([sd, ObjectDef(o)], State({}, [])) == Run([ObjectDef(o)], st1);
    // Object first: it is emitted before its name is ignored.
    var st2 := State({}, [td]);
    assert {} + RootsOf(ObjectDef(o)) == {} && none + [td] == [td];
    assert Step(State({}, []), ObjectDef(o)) == Ok(st2);
    assert Step(st2, sd) == Ok(State(RootsOf(sd), [td])) by {
      assert [td] + [] == [td];
    }
    assert [ObjectDef(o), sd][1..] == [sd] && [sd][1..] == [];
    assert Run([sd], st2) == Run([], State(RootsOf(sd), [td]));
    assert Run([ObjectDef(o), sd], State({}, [])) == Run([sd], st2);
  }

  /** Given an object that translates, its contribution at position i is
      empty exactly when a schema definition before position i names it,
      and is its struct otherwise. */
  lemma ObjectIgnoredIff(defs: seq<Definition>, i: int)
    requires 0 <= i < |defs| && defs[i].ObjectDef? && StructTypeDef(defs[i].obj).Ok?
    ensures Contributions(defs, {})[i] ==
              if defs[i].obj.name in DeclaredRoots(defs[..i]) then Ok([])
              else Ok([StructTypeDef(defs[i].obj).value])
  {
    assert {} + DeclaredRoots(defs[..i]) == DeclaredRoots(defs[..i]);
  }

  // ---------------------------------------------------------------------
  // Worked examples
  // ---------------------------------------------------------------------

  /** "line one\nline two" becomes "line one line two". */
  lemma CommentFoldsLineBreak(a: string, b: string)
    requires '\n' !in a && '\n' !in b
    ensures CommentValue(a + "\n" + b) == a + " " + b
  {
    CommentValueUnchangedIff(a);
    CommentValueUnchangedIff(b);
    assert CommentValue("\n") == " ";
    CommentValueConcat(a + "\n", b);
    CommentValueConcat(a, "\n");
  }

  lemma FieldExamples()
    ensures ConvertField(FieldDefinition("f", None, NonNull(Named("String")))) ==
              Ok(StructFieldDef("f", "", "String", "", true))
    ensures ConvertField(FieldDefinition("f", None, Named("String"))) ==
              Ok(StructFieldDef("f", "", "String", "", false))
    ensures ConvertField(FieldDefinition("f", None, List(Named("Int")))) ==
              Ok(StructFieldDef("f", "", "Array", "Int32", false))
    ensures ConvertField(FieldDefinition("f", None, NonNull(List(NonNull(Named("ID")))))) ==
              Ok(StructFieldDef("f", "", "Array", "String", true))
  {
  }

  lemma ScalarExamples()
    ensures Translate(Document([ScalarDef("UUID")])) == Ok(SchemaValue(SchemaName, []))
    ensures Translate(Document([ScalarDef("Date")])) == Fail(Error(UnsupportedScalar(ScalarDef("Date"))))
  {
    var none: seq<TypeDef> := [];
    var nobody: set<string> := {};
    assert none + none == none && nobody + nobody == nobody;
    assert [ScalarDef("UUID")][1..] == [];
    assert Run([ScalarDef("UUID")], State({}, [])) == Run([], State({}, []));
  }

  lemma EnumAndUnionExamples()
    ensures EnumTypeDef(EnumDefinition("E", None, [EnumValueDefinition("A", None), EnumValueDefinition("B", None)])) ==
              TypeDef("E", "", EnumSpec([EnumElementDef("A", ""), EnumElementDef("B", "")]))
    ensures UnionTypeDef(UnionDefinition("Pet", None, ["Cat", "Dog"])) ==
              TypeDef("Pet", "", UnionSpec(["Cat", "Dog"]))
  {
  }
}
