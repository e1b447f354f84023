/**
 * The field-definition mini-language of `make:crud`: every field argument is
 * `name:label:type`, the type is matched case-insensitively against a fixed
 * list and normalised to the name Laravel's schema builder uses.
 */
module FieldSpec {
  import opened Wrappers
  import opened Strings
  import opened Diagnostics

  /** The sixteen accepted type keywords. */
  datatype FieldType =
    | String | Text | Integer | BigInteger | Float | Double | Decimal | Boolean
    | Date | DateTime | Timestamp | Json | Email | Moeda | File | Files

  /** The keyword of each type as written in the list of valid types. */
  function Keyword(t: FieldType): string
  {
    match t
    case String => "string"
    case Text => "text"
    case Integer => "integer"
    case BigInteger => "biginteger"
    case Float => "float"
    case Double => "double"
    case Decimal => "decimal"
    case Boolean => "boolean"
    case Date => "date"
    case DateTime => "datetime"
    case Timestamp => "timestamp"
    case Json => "json"
    case Email => "email"
    case Moeda => "moeda"
    case File => "file"
    case Files => "files"
  }

  /** The list of valid types, in the order the command lists them in its warning. */
  const ValidTypes: seq<string> := [
    "string", "text", "integer", "biginteger", "float", "double",
    "decimal", "boolean", "date", "datetime", "timestamp", "json", "email", "moeda", "file", "files"
  ]

  /** Recognising a (lower-cased) keyword: exactly the list of valid types, and the inverse of `Keyword`. */
  function KeywordType(k: string): (r: Option<FieldType>)
    ensures r.Some? ==> Keyword(r.value) == k
  {
    if k in KeywordTable then Some(KeywordTable[k]) else None
  }

  /** Each valid keyword and the type it names. */
  const KeywordTable: map<string, FieldType> := map[
    "string" := String, "text" := Text, "integer" := Integer, "biginteger" := BigInteger,
    "float" := Float, "double" := Double, "decimal" := Decimal, "boolean" := Boolean,
    "date" := Date, "datetime" := DateTime, "timestamp" := Timestamp, "json" := Json,
    "email" := Email, "moeda" := Moeda, "file" := File, "files" := Files
  ]

  /** Every type's keyword is recognised as that type. */
  lemma KeywordRoundTrip(t: FieldType)
    ensures KeywordType(Keyword(t)) == Some(t)
  {
  }

  /**
   * The three spellings of the keyword list agree: a text is in the list of
   * valid types exactly when it is recognised, and every type's keyword is
   * in the list.
   */
  lemma KeywordListsAgree()
    ensures forall k :: k in ValidTypes <==> KeywordType(k).Some?
    ensures forall t: FieldType :: Keyword(t) in ValidTypes
    ensures |ValidTypes| == 16
  {
    forall k ensures k in ValidTypes <==> KeywordType(k).Some? {
      if KeywordType(k).Some? {
        assert k == Keyword(KeywordType(k).value);
      }
    }
  }

  /** The currency alias `moeda` is stored as a float; every other type keeps its own kind. */
  function Normalise(t: FieldType): (r: FieldType)
    ensures r != Moeda
    ensures t != Moeda ==> r == t
  {
    if t == Moeda then Float else t
  }

  /** The type name a parsed field carries (`biginteger` is spelt `bigInteger`, as Laravel's schema builder does). */
  function TypeName(t: FieldType): string
  {
    if t == BigInteger then "bigInteger" else Keyword(t)
  }

  /**
   * The `match` on the lower-cased type: `biginteger` becomes `bigInteger`,
   * `moeda` becomes `float`, every other valid keyword is kept lower-cased.
   */
  lemma TypeNormalisation(k: string)
    requires k in ValidTypes
    ensures TypeName(Normalise(KeywordType(k).value)) ==
              if k == "biginteger" then "bigInteger" else if k == "moeda" then "float" else k
  {
  }

  /** A parsed field. */
  datatype Field = Field(name: string, caption: string, ftype: FieldType, isForeign: bool, relatedModel: string)

  /** The reserved prefix of foreign-key fields. */
  const ForeignPrefix := "id_"

  /** `ucfirst(Str::camel(str_replace('id_', '', $name)))`: every `id_` in the name is removed. */
  function RelatedModelName(name: string, infl: Inflector): (r: string)
    ensures |r| == |infl.camel(ReplaceAll(name, ForeignPrefix, ""))|
  {
    UcFirst(infl.camel(ReplaceAll(name, ForeignPrefix, "")))
  }

  /** For `id_` followed by a name free of `id_`, the camel-case step sees exactly that name. */
  lemma RelatedModelOfPrefixedName(rest: string, infl: Inflector)
    requires !Contains(rest, ForeignPrefix)
    ensures RelatedModelName(ForeignPrefix + rest, infl) == UcFirst(infl.camel(rest))
  {
    var s := ForeignPrefix + rest;
    assert s[..|ForeignPrefix|] == ForeignPrefix;
    assert s[|ForeignPrefix|..] == rest;
    assert |s| >= |ForeignPrefix|;
    assert ReplaceAll(s, ForeignPrefix, "") == "" + ReplaceAll(s[|ForeignPrefix|..], ForeignPrefix, "");
    ReplaceAllAbsent(rest, ForeignPrefix, "");
    assert ReplaceAll(s, ForeignPrefix, "") == rest;
  }

  /** What one field argument turns into. */
  datatype FieldOutcome =
    | BadFormat                   // not exactly three parts: the whole run aborts
    | SkippedType(typ: string)    // a type that is not supported: warned and skipped
    | Accepted(field: Field)

  /** A field argument has the `name:label:type` shape: exactly two colons. */
  predicate WellFormed(arg: string)
  {
    |Split(arg, ':')| == 3
  }

  /** The shape test is a count of colons. */
  lemma WellFormedIsTwoColons(arg: string)
    ensures WellFormed(arg) <==> multiset(arg)[':'] == 2
  {
    SplitParts(arg, ':');
  }

  /** The body of the parsing loop for one argument. */
  function ParseOne(arg: string, infl: Inflector): (r: FieldOutcome)
    ensures r.BadFormat? <==> !WellFormed(arg)
    ensures r.SkippedType? ==> KeywordType(ToLower(r.typ)).None?
    ensures r.Accepted? ==> r.field.ftype != Moeda
    ensures r.Accepted? ==> (r.field.isForeign <==> StartsWith(r.field.name, ForeignPrefix))
    ensures r.Accepted? ==> r.field.relatedModel == RelatedModelName(r.field.name, infl)
    ensures r.Accepted? ==> r.field.caption == [] || (!IsQuote(r.field.caption[0]) && !IsQuote(r.field.caption[|r.field.caption| - 1]))
  {
    var parts := Split(arg, ':');
    if |parts| != 3 then BadFormat
    else
      var typ := TrimQuotes(parts[2]);
      match KeywordType(ToLower(typ))
      case None => SkippedType(typ)
      case Some(t) =>
        var name := parts[0];
        Accepted(Field(name, TrimQuotes(parts[1]), Normalise(t), StartsWith(name, ForeignPrefix), RelatedModelName(name, infl)))
  }

  /** The fields kept and the warnings printed by one parse. */
  datatype Parsed = Parsed(fields: seq<Field>, warnings: seq<Warning>)

  /** `f` applied to every element, in order. */
  function MapEach<A, B>(xs: seq<A>, f: A -> B): (ys: seq<B>)
    ensures |ys| == |xs|
  {
    if xs == [] then [] else MapEach(xs[..|xs| - 1], f) + [f(xs[|xs| - 1])]
  }

  /** The element at each position is `f` of the element at that position. */
  lemma {:induction false} MapEachAt<A, B>(xs: seq<A>, f: A -> B, i: nat)
    requires i < |xs|
    ensures MapEach(xs, f)[i] == f(xs[i])
    decreases |xs|
  {
    var n := |xs| - 1;
    if i < n {
      MapEachAt(xs[..n], f, i);
      assert xs[..n][i] == xs[i];
    }
  }

  /** Mapping a prefix gives the prefix of the mapping. */
  lemma {:induction false} MapEachPrefix<A, B>(xs: seq<A>, f: A -> B, m: nat)
    requires m <= |xs|
    ensures MapEach(xs[..m], f) == MapEach(xs, f)[..m]
    decreases |xs|
  {
    if m < |xs| {
      var n := |xs| - 1;
      assert xs[..n][..m] == xs[..m];
      MapEachPrefix(xs[..n], f, m);
    } else {
      assert xs[..m] == xs;
    }
  }

  /** What each argument turns into, position by position. */
  function Outcomes(args: seq<string>, infl: Inflector): (o: seq<FieldOutcome>)
    ensures |o| == |args|
  {
    MapEach(args, a => ParseOne(a, infl))
  }

  /** The outcome at one position is that of the argument at the same position. */
  lemma OutcomeAt(args: seq<string>, infl: Inflector, i: nat)
    requires i < |args|
    ensures Outcomes(args, infl)[i] == ParseOne(args[i], infl)
  {
    MapEachAt(args, a => ParseOne(a, infl), i);
  }

  /** The outcomes are those of the arguments, position by position. */
  lemma OutcomesInOrder(args: seq<string>, infl: Inflector)
    ensures forall i :: 0 <= i < |args| ==> Outcomes(args, infl)[i] == ParseOne(args[i], infl)
  {
    forall i | 0 <= i < |args|
      ensures Outcomes(args, infl)[i] == ParseOne(args[i], infl)
    {
      OutcomeAt(args, infl, i);
    }
  }

  /** The outcomes of a prefix of the arguments are the prefix of their outcomes. */
  lemma OutcomesPrefix(args: seq<string>, infl: Inflector, m: nat)
    requires m <= |args|
    ensures Outcomes(args[..m], infl) == Outcomes(args, infl)[..m]
  {
    MapEachPrefix(args, a => ParseOne(a, infl), m);
  }

  /**
   * The loop of `parseFields` over the outcomes of its arguments, in order:
   * the first malformed argument aborts, unknown types add a warning, the
   * rest add a field.
   */
  function Collect(args: seq<string>, o: seq<FieldOutcome>): (r: Result<Parsed, Aborted>)
    requires |o| == |args|
    ensures r.Success? ==> forall i :: 0 <= i < |args| ==> !o[i].BadFormat?
    ensures r.Success? ==> |r.value.fields| <= |args| && |r.value.warnings| <= |args|
  {
    if args == [] then Success(Parsed([], []))
    else
      var n := |args| - 1;
      match Collect(args[..n], o[..n])
      case Failure(e) => Failure(e)
      case Success(p) =>
        match o[n]
        case BadFormat => Failure(Aborted(p.warnings, InvalidFieldFormat(args[n])))
        case SkippedType(typ) => Success(Parsed(p.fields, p.warnings + [UnknownType(typ)]))
        case Accepted(f) => Success(Parsed(p.fields + [f], p.warnings))
  }

  /**
   * `parseFields`: when it does not throw, every argument had three
   * segments, and each gave exactly one field or one warning.
   */
  function Parse(args: seq<string>, infl: Inflector): (r: Result<Parsed, Aborted>)
    ensures r.Success? ==> forall i :: 0 <= i < |args| ==> WellFormed(args[i])
    ensures r.Success? ==> |r.value.fields| + |r.value.warnings| == |args|
  {
    var o := Outcomes(args, infl);
    if Collect(args, o).Success? then
      OutcomesInOrder(args, infl);
      CollectAccountsForEveryArgument(args, o);
      Collect(args, o)
    else
      Collect(args, o)
  }

  /** `parseFields` as the loop the command runs. */
  method ParseFields(args: seq<string>, infl: Inflector) returns (r: Result<Parsed, Aborted>)
    ensures r == Parse(args, infl)
  {
    var fields: seq<Field> := [];
    var warnings: seq<Warning> := [];
    var i := 0;
    while i < |args|
      invariant 0 <= i <= |args|
      invariant Collect(args[..i], Outcomes(args[..i], infl)) == Success(Parsed(fields, warnings))
    {
      ParseStep(args, infl, i);
      match ParseOne(args[i], infl) {
        case BadFormat =>
          return Failure(Aborted(warnings, InvalidFieldFormat(args[i])));
        case SkippedType(typ) =>
          warnings := warnings + [UnknownType(typ)];
        case Accepted(f) =>
          fields := fields + [f];
      }
      i := i + 1;
    }
    assert args[..i] == args;
    r := Success(Parsed(fields, warnings));
  }

  /** One turn of the loop of `parseFields`, after a prefix of the arguments that did not abort. */
  lemma ParseStep(args: seq<string>, infl: Inflector, i: nat)
    requires i < |args|
    requires Collect(args[..i], Outcomes(args[..i], infl)).Success?
    ensures var p := Collect(args[..i], Outcomes(args[..i], infl)).value;
            match ParseOne(args[i], infl)
            case BadFormat => Parse(args, infl) == Failure(Aborted(p.warnings, InvalidFieldFormat(args[i])))
            case SkippedType(typ) =>
              Collect(args[..i + 1], Outcomes(args[..i + 1], infl)) == Success(Parsed(p.fields, p.warnings + [UnknownType(typ)]))
            case Accepted(f) =>
              Collect(args[..i + 1], Outcomes(args[..i + 1], infl)) == Success(Parsed(p.fields + [f], p.warnings))
  {
    var o := Outcomes(args, infl);
    OutcomesPrefix(args, infl, i);
    OutcomesPrefix(args, infl, i + 1);
    OutcomeAt(args, infl, i);
    CollectStep(args, o, i);
    if ParseOne(args[i], infl).BadFormat? {
      FailureIsSticky(args, o, i + 1);
    }
  }

  /** One more argument: the loop body applied to the outcome at position `i`. */
  lemma CollectStep(args: seq<string>, o: seq<FieldOutcome>, i: nat)
    requires |o| == |args| && i < |args|
    requires Collect(args[..i], o[..i]).Success?
    ensures var p := Collect(args[..i], o[..i]).value;
            Collect(args[..i + 1], o[..i + 1]) ==
              match o[i]
              case BadFormat => Failure(Aborted(p.warnings, InvalidFieldFormat(args[i])))
              case SkippedType(typ) => Success(Parsed(p.fields, p.warnings + [UnknownType(typ)]))
              case Accepted(f) => Success(Parsed(p.fields + [f], p.warnings))
  {
    assert args[..i + 1][..i] == args[..i];
    assert o[..i + 1][..i] == o[..i];
  }

  /** Once a prefix of the arguments fails, so does every longer prefix, with the same error. */
  lemma {:induction false} FailureIsSticky(args: seq<string>, o: seq<FieldOutcome>, n: nat)
    requires |o| == |args| && n <= |args|
    requires Collect(args[..n], o[..n]).Failure?
    ensures Collect(args, o) == Collect(args[..n], o[..n])
    decreases |args| - n
  {
    if n < |args| {
      assert args[..n + 1][..n] == args[..n];
      assert o[..n + 1][..n] == o[..n];
      FailureIsSticky(args, o, n + 1);
    } else {
      assert args[..n] == args;
      assert o[..n] == o;
    }
  }

  /** The loop aborts exactly when some outcome is malformed, and reports the first such argument. */
  lemma {:induction false} CollectFailsOnFirstMalformed(args: seq<string>, o: seq<FieldOutcome>)
    requires |o| == |args|
    ensures Collect(args, o).Failure? <==> exists i :: 0 <= i < |args| && o[i].BadFormat?
    ensures Collect(args, o).Failure? ==>
              exists i :: 0 <= i < |args| && Collect(args, o).error.error == InvalidFieldFormat(args[i]) &&
                o[i].BadFormat? && forall j :: 0 <= j < i ==> !o[j].BadFormat?
  {
    if args != [] {
      var n := |args| - 1;
      CollectFailsOnFirstMalformed(args[..n], o[..n]);
      assert forall i :: 0 <= i < n ==> args[..n][i] == args[i] && o[..n][i] == o[i];
    }
  }

  /**
   * When the first malformed outcome is at position `i`, the loop aborts
   * with that argument's error, after the warnings the outcomes in front of
   * it gave.
   */
  lemma CollectAbortKeepsWarnings(args: seq<string>, o: seq<FieldOutcome>, i: nat)
    requires |o| == |args| && i < |args|
    requires o[i].BadFormat? && forall j :: 0 <= j < i ==> !o[j].BadFormat?
    ensures Collect(args[..i], o[..i]).Success?
    ensures Collect(args, o) == Failure(Aborted(Collect(args[..i], o[..i]).value.warnings, InvalidFieldFormat(args[i])))
  {
    CollectFailsOnFirstMalformed(args[..i], o[..i]);
    assert forall j :: 0 <= j < i ==> o[..i][j] == o[j];
    CollectStep(args, o, i);
    FailureIsSticky(args, o, i + 1);
  }

  /** A run aborts exactly when some argument is malformed, and it reports the first such argument. */
  lemma ParseFailsOnFirstMalformed(args: seq<string>, infl: Inflector)
    ensures Parse(args, infl).Failure? <==> exists i :: 0 <= i < |args| && !WellFormed(args[i])
    ensures Parse(args, infl).Failure? ==>
              exists i :: 0 <= i < |args| && Parse(args, infl).error.error == InvalidFieldFormat(args[i]) &&
                !WellFormed(args[i]) && forall j :: 0 <= j < i ==> WellFormed(args[j])
  {
    OutcomesInOrder(args, infl);
    CollectFailsOnFirstMalformed(args, Outcomes(args, infl));
  }

  /**
   * When the first malformed argument is at position `i`, the run aborts
   * with its error, after the warnings that the arguments in front of it,
   * parsed on their own, give.
   */
  lemma ParseAbortKeepsWarnings(args: seq<string>, infl: Inflector, i: nat)
    requires i < |args| && !WellFormed(args[i])
    requires forall j :: 0 <= j < i ==> WellFormed(args[j])
    ensures Parse(args[..i], infl).Success?
    ensures Parse(args, infl) == Failure(Aborted(Parse(args[..i], infl).value.warnings, InvalidFieldFormat(args[i])))
  {
    var o := Outcomes(args, infl);
    OutcomesInOrder(args, infl);
    OutcomesPrefix(args, infl, i);
    CollectAbortKeepsWarnings(args, o, i);
  }

  /** Every outcome yields exactly one field or one warning, unless the loop aborts. */
  lemma {:induction false} CollectAccountsForEveryArgument(args: seq<string>, o: seq<FieldOutcome>)
    requires |o| == |args|
    requires Collect(args, o).Success?
    ensures |Collect(args, o).value.fields| + |Collect(args, o).value.warnings| == |args|
  {
    if args != [] {
      var n := |args| - 1;
      CollectAccountsForEveryArgument(args[..n], o[..n]);
    }
  }

  /** The positions, in increasing order, of the outcomes that are accepted fields. */
  ghost function AcceptedPositions(o: seq<FieldOutcome>): (idx: seq<nat>)
    ensures forall k :: 0 <= k < |idx| ==> idx[k] < |o| && o[idx[k]].Accepted?
    ensures forall k, l :: 0 <= k < l < |idx| ==> idx[k] < idx[l]
    ensures forall i :: 0 <= i < |o| && o[i].Accepted? ==> i in idx
  {
    if o == [] then []
    else
      var n := |o| - 1;
      var idx := AcceptedPositions(o[..n]);
      assert forall i :: 0 <= i < n ==> o[..n][i] == o[i];
      if o[n].Accepted? then idx + [n] else idx
  }

  /** The fields the loop keeps are the accepted outcomes, in argument order. */
  lemma {:induction false} CollectKeepsAcceptedInOrder(args: seq<string>, o: seq<FieldOutcome>)
    requires |o| == |args|
    requires Collect(args, o).Success?
    ensures |Collect(args, o).value.fields| == |AcceptedPositions(o)|
    ensures forall k :: 0 <= k < |AcceptedPositions(o)| ==>
              Collect(args, o).value.fields[k] == o[AcceptedPositions(o)[k]].field
  {
    if args != [] {
      var n := |args| - 1;
      CollectKeepsAcceptedInOrder(args[..n], o[..n]);
      assert forall i :: 0 <= i < n ==> o[..n][i] == o[i];
    }
  }

  /** The positions, in increasing order, of the outcomes that skipped their type. */
  ghost function SkippedPositions(o: seq<FieldOutcome>): (idx: seq<nat>)
    ensures forall k :: 0 <= k < |idx| ==> idx[k] < |o| && o[idx[k]].SkippedType?
    ensures forall k, l :: 0 <= k < l < |idx| ==> idx[k] < idx[l]
    ensures forall i :: 0 <= i < |o| && o[i].SkippedType? ==> i in idx
  {
    if o == [] then []
    else
      var n := |o| - 1;
      var idx := SkippedPositions(o[..n]);
      assert forall i :: 0 <= i < n ==> o[..n][i] == o[i];
      if o[n].SkippedType? then idx + [n] else idx
  }

  /**
   * The warnings the loop prints are one unknown-type warning per outcome
   * that skipped its type, in argument order.
   */
  lemma {:induction false} CollectWarnsInOrder(args: seq<string>, o: seq<FieldOutcome>)
    requires |o| == |args|
    requires Collect(args, o).Success?
    ensures |Collect(args, o).value.warnings| == |SkippedPositions(o)|
    ensures forall k :: 0 <= k < |SkippedPositions(o)| ==>
              Collect(args, o).value.warnings[k] == UnknownType(o[SkippedPositions(o)[k]].typ)
  {
    if args != [] {
      var n := |args| - 1;
      CollectWarnsInOrder(args[..n], o[..n]);
      assert forall i :: 0 <= i < n ==> o[..n][i] == o[i];
    }
  }

  /** Every warning is an unknown-type warning for an outcome that skipped its type. */
  lemma {:induction false} CollectWarnsOnlyForSkippedTypes(args: seq<string>, o: seq<FieldOutcome>)
    requires |o| == |args|
    requires Collect(args, o).Success?
    ensures forall w <- Collect(args, o).value.warnings ::
              w.UnknownType? && exists i :: 0 <= i < |o| && o[i] == SkippedType(w.typ)
  {
    if args != [] {
      var n := |args| - 1;
      CollectWarnsOnlyForSkippedTypes(args[..n], o[..n]);
      assert forall i :: 0 <= i < n ==> o[..n][i] == o[i];
    }
  }

  /**
   * A successful parse accounts for every argument: each gives exactly one
   * field or one warning, so at most as many fields as arguments.
   */
  lemma ParseAccountsForEveryArgument(args: seq<string>, infl: Inflector)
    requires Parse(args, infl).Success?
    ensures |Parse(args, infl).value.fields| + |Parse(args, infl).value.warnings| == |args|
    ensures |Parse(args, infl).value.fields| <= |args|
  {
    CollectAccountsForEveryArgument(args, Outcomes(args, infl));
  }

  /**
   * The parsed fields are the accepted arguments, in argument order (an
   * order-preserving subsequence of the input); every such field has a
   * normalised type (never `moeda`), is a foreign key exactly when its name
   * starts with `id_`, and carries its related-model name.
   */
  lemma ParseKeepsAcceptedInOrder(args: seq<string>, infl: Inflector)
    requires Parse(args, infl).Success?
    ensures |Parse(args, infl).value.fields| == |AcceptedPositions(Outcomes(args, infl))|
    ensures forall k :: 0 <= k < |Parse(args, infl).value.fields| ==>
              var i := AcceptedPositions(Outcomes(args, infl))[k];
              i < |args| && ParseOne(args[i], infl) == Accepted(Parse(args, infl).value.fields[k])
    ensures forall f <- Parse(args, infl).value.fields ::
              f.ftype != Moeda &&
              (f.isForeign <==> StartsWith(f.name, ForeignPrefix)) &&
              f.relatedModel == RelatedModelName(f.name, infl)
  {
    var o := Outcomes(args, infl);
    CollectKeepsAcceptedInOrder(args, o);
    var fs := Parse(args, infl).value.fields;
    var idx := AcceptedPositions(o);
    forall k | 0 <= k < |fs|
      ensures idx[k] < |args| && ParseOne(args[idx[k]], infl) == Accepted(fs[k])
    {
      OutcomeAt(args, infl, idx[k]);
    }
    forall k | 0 <= k < |fs|
      ensures fs[k].ftype != Moeda && (fs[k].isForeign <==> StartsWith(fs[k].name, ForeignPrefix)) &&
              fs[k].relatedModel == RelatedModelName(fs[k].name, infl)
    {
      assert ParseOne(args[idx[k]], infl).field == fs[k];
    }
  }

  /**
   * The warnings are one per argument whose type is not one of the valid
   * types, naming that type, in argument order, and nothing else.
   */
  lemma ParseWarnsInOrder(args: seq<string>, infl: Inflector)
    requires Parse(args, infl).Success?
    ensures |Parse(args, infl).value.warnings| == |SkippedPositions(Outcomes(args, infl))|
    ensures forall k :: 0 <= k < |Parse(args, infl).value.warnings| ==>
              var i := SkippedPositions(Outcomes(args, infl))[k];
              i < |args| && ParseOne(args[i], infl).SkippedType? &&
              Parse(args, infl).value.warnings[k] == UnknownType(ParseOne(args[i], infl).typ)
  {
    var o := Outcomes(args, infl);
    CollectWarnsInOrder(args, o);
    var ws := Parse(args, infl).value.warnings;
    var idx := SkippedPositions(o);
    forall k | 0 <= k < |ws|
      ensures idx[k] < |args| && ParseOne(args[idx[k]], infl).SkippedType? &&
              ws[k] == UnknownType(ParseOne(args[idx[k]], infl).typ)
    {
      OutcomeAt(args, infl, idx[k]);
    }
  }

  /** Every warning names a type, taken from some argument, that is not one of the valid types. */
  lemma ParseWarnsOnlyForUnknownTypes(args: seq<string>, infl: Inflector)
    requires Parse(args, infl).Success?
    ensures forall w <- Parse(args, infl).value.warnings ::
              w.UnknownType? && KeywordType(ToLower(w.typ)).None? &&
              exists i :: 0 <= i < |args| && ParseOne(args[i], infl) == SkippedType(w.typ)
  {
    OutcomesInOrder(args, infl);
    CollectWarnsOnlyForSkippedTypes(args, Outcomes(args, infl));
  }
}
