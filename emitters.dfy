/**
 * The per-field fragment lists the model, controller and view emitters
 * substitute into their templates. Each list is built with `array_map` over
 * the parsed fields, so it has one entry per field, in field order, unless
 * the source filters it.
 */
module Emitters {
  import opened Wrappers
  import opened Strings
  import opened FieldSpec
  import opened TypeTables
  import opened Naming

  /** PHP `array_map` over the fields. */
  function MapFields<T>(fields: seq<Field>, g: Field -> T): (r: seq<T>)
    ensures |r| == |fields|
    ensures forall i :: 0 <= i < |fields| ==> r[i] == g(fields[i])
  {
    seq(|fields|, i requires 0 <= i < |fields| => g(fields[i]))
  }

  function Quoted(s: string): string { "'" + s + "'" }

  // ---------------------------------------------------------------- model

  /** A `belongsTo` stub, marked for manual follow-up, named after the related model. */
  datatype Relation = Relation(field: string, relatedModel: string)

  /** The slots `createModel` fills in its template. */
  datatype ModelFile = ModelFile(model: string, fillable: seq<string>, casts: seq<string>, relationships: seq<Option<Relation>>)

  /** `'name' => 'cast'` for a field whose type has a cast. */
  function CastEntry(f: Field): Option<string>
  {
    match CastFor(f.ftype)
    case None => None
    case Some(c) => Some(Quoted(f.name) + " => " + Quoted(CastName(c)))
  }

  /** The field's type has a cast. */
  predicate HasCast(f: Field)
  {
    CastFor(f.ftype).Some?
  }

  /** The positions, in increasing order, of the fields whose type has a cast. */
  ghost function CastPositions(fields: seq<Field>): (idx: seq<nat>)
    ensures forall k :: 0 <= k < |idx| ==> idx[k] < |fields| && HasCast(fields[idx[k]])
    ensures forall k, l :: 0 <= k < l < |idx| ==> idx[k] < idx[l]
    ensures forall i :: 0 <= i < |fields| && HasCast(fields[i]) ==> i in idx
  {
    if fields == [] then []
    else
      var n := |fields| - 1;
      var idx := CastPositions(fields[..n]);
      assert forall i :: 0 <= i < n ==> fields[..n][i] == fields[i];
      if HasCast(fields[n]) then idx + [n] else idx
  }

  /**
   * `array_filter(array_map(...))`: one entry per field whose type has a
   * cast, in field order, and none for the other fields.
   */
  function Casts(fields: seq<Field>): (r: seq<string>)
    ensures |r| <= |fields|
    ensures |r| == |CastPositions(fields)|
    ensures forall k :: 0 <= k < |r| ==> r[k] == CastEntry(fields[CastPositions(fields)[k]]).value
  {
    if fields == [] then []
    else
      var init := Casts(fields[..|fields| - 1]);
      match CastEntry(fields[|fields| - 1])
      case None => init
      case Some(e) => init + [e]
  }

  /**
   * Casts are emitted exactly for the fields of a cast type (files, the float
   * family, the date family): every such field has its entry, and every entry
   * comes from such a field.
   */
  lemma CastsExactlyForCastTypes(fields: seq<Field>)
    ensures forall f <- fields :: CastFor(f.ftype).Some? ==> CastEntry(f).value in Casts(fields)
    ensures forall e <- Casts(fields) :: exists f <- fields :: CastFor(f.ftype).Some? && CastEntry(f) == Some(e)
  {
    var r := Casts(fields);
    var idx := CastPositions(fields);
    forall f <- fields | CastFor(f.ftype).Some?
      ensures CastEntry(f).value in r
    {
      var i :| 0 <= i < |fields| && fields[i] == f;
      assert HasCast(fields[i]);
      var k :| 0 <= k < |idx| && idx[k] == i;
      assert r[k] == CastEntry(f).value;
    }
    forall e <- r
      ensures exists f <- fields :: CastFor(f.ftype).Some? && CastEntry(f) == Some(e)
    {
      var k :| 0 <= k < |r| && r[k] == e;
      var f := fields[idx[k]];
      assert HasCast(f);
    }
  }

  function RelationFor(f: Field): Option<Relation>
  {
    if f.isForeign then Some(Relation(f.name, f.relatedModel)) else None
  }

  /** `createModel`: the model name, fillable names, casts and one relation slot per field. */
  function ModelFileFor(model: string, fields: seq<Field>): (m: ModelFile)
    ensures m.model == model && m.casts == Casts(fields)
    ensures |m.fillable| == |m.relationships| == |fields|
    ensures forall i :: 0 <= i < |fields| ==> m.fillable[i] == Quoted(fields[i].name)
    ensures forall i :: 0 <= i < |fields| ==> (m.relationships[i].Some? <==> fields[i].isForeign)
    ensures forall i :: 0 <= i < |fields| && fields[i].isForeign ==>
              m.relationships[i] == Some(Relation(fields[i].name, fields[i].relatedModel))
  {
    ModelFile(model, MapFields(fields, (f: Field) => Quoted(f.name)), Casts(fields), MapFields(fields, RelationFor))
  }

  // ----------------------------------------------------------- controller

  /**
   * The options a foreign field's dropdown needs: the related model's rows
   * that are not soft-deleted, newest first, as `value`/`label` pairs.
   */
  datatype OptionsQuery = OptionsQuery(variable: string, relatedModel: string)

  /**
   * The slots `createController` fills: the seven names, then the
   * validation rules and the dropdown wiring its methods are built from.
   */
  datatype ControllerFile = ControllerFile(
    model: string, controller: string, viewFolder: string, routePrefix: string, modelLower: string,
    modelTitle: string, modelPluralTitle: string,
    rules: seq<string>, dropdownData: seq<Option<OptionsQuery>>, dropdownProps: seq<string>)

  /** `'name' => 'required|<rule>|max:255',`. */
  function RuleEntry(f: Field): string
  {
    Quoted(f.name) + " => " + Quoted(RuleText(f.ftype)) + ","
  }

  function DropdownQuery(f: Field): Option<OptionsQuery>
  {
    if f.isForeign then Some(OptionsQuery(OptionsProp(f), f.relatedModel)) else None
  }

  /** `generateDropdownProps`: one Inertia prop per foreign field, an empty entry for the others. */
  function DropdownPropEntry(f: Field): string
  {
    if f.isForeign then "," + Quoted(OptionsProp(f)) + " => $" + OptionsProp(f) else ""
  }

  /**
   * `createController`: the names `handle` derived, and one rule and one
   * dropdown entry per field, in field order.
   */
  function ControllerFileFor(n: Names, fields: seq<Field>): (c: ControllerFile)
    ensures c.model == n.model && c.controller == n.controller && c.viewFolder == n.viewFolder
    ensures c.routePrefix == n.routePrefix && c.modelLower == n.modelLower
    ensures c.modelTitle == n.title && c.modelPluralTitle == n.pluralTitle
    ensures |c.rules| == |c.dropdownData| == |c.dropdownProps| == |fields|
    ensures forall i :: 0 <= i < |fields| ==> c.rules[i] == RuleEntry(fields[i])
    ensures forall i :: 0 <= i < |fields| ==> (c.dropdownData[i].Some? <==> fields[i].isForeign)
    ensures forall i :: 0 <= i < |fields| ==> (c.dropdownProps[i] == "" <==> !fields[i].isForeign)
  {
    ControllerFile(n.model, n.controller, n.viewFolder, n.routePrefix, n.modelLower, n.title, n.pluralTitle,
                   MapFields(fields, RuleEntry), MapFields(fields, DropdownQuery), MapFields(fields, DropdownPropEntry))
  }

  /** One rule entry: the quoted name mapped to `required`, the type's rule and `max:255`, quoted, then a comma. */
  lemma RuleEntryShape(f: Field)
    ensures RuleEntry(f) == Quoted(f.name) + " => " + "'" + "required|" + RuleName(RuleFor(f.ftype)) + "|max:255" + "'" + ","
  {
    var q := Quoted(f.name);
    var m := RuleName(RuleFor(f.ftype));
    var x := "required|" + m + "|max:255";
    calc {
      RuleEntry(f);
      q + " => " + ("'" + x + "'") + ",";
      { assert (q + " => ") + ("'" + x + "'") == q + " => " + "'" + x + "'"; }
      q + " => " + "'" + x + "'" + ",";
      { assert q + " => " + "'" + x == q + " => " + "'" + "required|" + m + "|max:255"; }
      q + " => " + "'" + "required|" + m + "|max:255" + "'" + ",";
    }
  }

  /** Every field gets exactly one rule, in field order, and it is `required`, typed by the rule table, and `max:255`. */
  lemma RulesCoverEveryField(n: Names, fields: seq<Field>)
    ensures |ControllerFileFor(n, fields).rules| == |fields|
    ensures forall i :: 0 <= i < |fields| ==>
              ControllerFileFor(n, fields).rules[i] ==
                Quoted(fields[i].name) + " => " + "'" + "required|" + RuleName(RuleFor(fields[i].ftype)) + "|max:255" + "'" + ","
  {
    forall i | 0 <= i < |fields|
      ensures ControllerFileFor(n, fields).rules[i] ==
                Quoted(fields[i].name) + " => " + "'" + "required|" + RuleName(RuleFor(fields[i].ftype)) + "|max:255" + "'" + ","
    {
      RuleEntryShape(fields[i]);
    }
  }

  // ---------------------------------------------------------------- views

  /** The five names both pages are filled with. */
  datatype PageNames = PageNames(pluralTitle: string, routePrefix: string, pluralLower: string, title: string, modelLower: string)

  /** The slots of the create/edit page. */
  datatype CreateView = CreateView(
    names: PageNames, propFields: seq<string>, formFields: seq<string>, formInputs: seq<Widget>, dropdownProps: seq<string>)

  /** A sortable column header of the index page. */
  datatype Header = Header(field: string, caption: string)

  /** The slots of the index page. */
  datatype IndexView = IndexView(
    names: PageNames, propFields: seq<string>, headers: seq<Header>, cells: seq<string>, filters: seq<string>)

  /** The names `createViews` puts into both pages: the plural title, the route prefix, the lower-cased plural, the title and the lower-cased model. */
  function PageNamesOf(n: Names): (p: PageNames)
    ensures p.pluralTitle == n.pluralTitle && p.routePrefix == n.routePrefix && p.pluralLower == n.pluralLower
    ensures p.title == n.title && p.modelLower == n.modelLower
  {
    PageNames(n.pluralTitle, n.routePrefix, n.pluralLower, n.title, n.modelLower)
  }

  /** `name: <prop type>`. */
  function PropField(f: Field): string
  {
    f.name + ": " + PropTypeName(PropTypeFor(f.ftype))
  }

  /** `name: props.item?.name.toString() || <default>`. */
  function FormField(f: Field): string
  {
    f.name + ": props.item?." + f.name + ".toString() || " + FormDefaultFor(f.ftype)
  }

  /** The `defineProps` entry of a foreign field's options; empty for the other fields. */
  function ViewDropdownProp(f: Field): string
  {
    if f.isForeign then OptionsProp(f) + ": { value: number; label: string }[];" else ""
  }

  /** The case-insensitive substring test the index page's search applies to a field. */
  function FilterCondition(f: Field): string
  {
    "(item." + f.name + " || '').toString().toLowerCase().includes(query)"
  }

  /**
   * `createViews`, create page: the five page names, and one prop, form
   * field and input per field, in field order, the input chosen by the
   * widget table.
   */
  function CreateViewFor(n: Names, fields: seq<Field>): (v: CreateView)
    ensures v.names == PageNamesOf(n)
    ensures |v.propFields| == |v.formFields| == |v.formInputs| == |v.dropdownProps| == |fields|
    ensures forall i :: 0 <= i < |fields| ==>
              v.propFields[i] == PropField(fields[i]) && v.formFields[i] == FormField(fields[i]) &&
              v.formInputs[i] == WidgetFor(fields[i])
    ensures forall i :: 0 <= i < |fields| ==> (v.dropdownProps[i] == "" <==> !fields[i].isForeign)
  {
    CreateView(PageNamesOf(n), MapFields(fields, PropField), MapFields(fields, FormField), MapFields(fields, WidgetFor), MapFields(fields, ViewDropdownProp))
  }

  /** `createViews`, index page: the five page names, and one prop, header, cell and search condition per field, in field order. */
  function IndexViewFor(n: Names, fields: seq<Field>): (v: IndexView)
    ensures v.names == PageNamesOf(n)
    ensures |v.propFields| == |v.headers| == |v.cells| == |v.filters| == |fields|
    ensures forall i :: 0 <= i < |fields| ==>
              v.propFields[i] == PropField(fields[i]) && v.filters[i] == FilterCondition(fields[i])
  {
    IndexView(PageNamesOf(n), MapFields(fields, PropField), MapFields(fields, (f: Field) => Header(f.name, f.caption)),
              MapFields(fields, (f: Field) => f.name), MapFields(fields, FilterCondition))
  }

  /**
   * The dropdown of a foreign field is wired through all three artifacts
   * under one name: the controller queries the related model into
   * `<name>Options`, passes it as the prop `<name>Options`, the page declares
   * that prop and its select reads it. A field that is not a foreign key gets
   * none of these.
   */
  lemma DropdownWiring(n: Names, fields: seq<Field>, i: nat)
    requires i < |fields|
    ensures var c := ControllerFileFor(n, fields);
            var v := CreateViewFor(n, fields);
            var f := fields[i];
            var p := f.name + "Options";
            |c.dropdownData| == |c.dropdownProps| == |v.dropdownProps| == |v.formInputs| == |fields| &&
            (f.isForeign ==>
               c.dropdownData[i] == Some(OptionsQuery(p, f.relatedModel)) &&
               c.dropdownProps[i] == "," + "'" + p + "'" + " => $" + p &&
               v.dropdownProps[i] == p + ": { value: number; label: string }[];" &&
               v.formInputs[i] == Select(p)) &&
            (!f.isForeign ==>
               c.dropdownData[i] == None && c.dropdownProps[i] == "" && v.dropdownProps[i] == "" &&
               !v.formInputs[i].Select?)
  {
    var c := ControllerFileFor(n, fields);
    var v := CreateViewFor(n, fields);
    assert c.dropdownData[i] == DropdownQuery(fields[i]);
    assert c.dropdownProps[i] == DropdownPropEntry(fields[i]);
    assert v.dropdownProps[i] == ViewDropdownProp(fields[i]);
    DropdownEntries(fields[i]);
  }

  /** The three dropdown entries of one field, written out. */
  lemma DropdownEntries(f: Field)
    ensures var p := f.name + "Options";
            (f.isForeign ==>
               DropdownQuery(f) == Some(OptionsQuery(p, f.relatedModel)) &&
               DropdownPropEntry(f) == "," + "'" + p + "'" + " => $" + p &&
               ViewDropdownProp(f) == p + ": { value: number; label: string }[];") &&
            (!f.isForeign ==> DropdownQuery(f) == None && DropdownPropEntry(f) == "" && ViewDropdownProp(f) == "")
  {
  }

  /** Every field, foreign or not, has a header, a cell and a search condition on the index page, in field order. */
  lemma IndexCoversEveryField(n: Names, fields: seq<Field>)
    ensures var v := IndexViewFor(n, fields);
            |v.headers| == |v.cells| == |v.filters| == |fields| &&
            forall i :: 0 <= i < |fields| ==>
              v.headers[i] == Header(fields[i].name, fields[i].caption) && v.cells[i] == fields[i].name
  {
  }

  /**
   * Every name `handle` derives reaches a generated file: two sets of names
   * that give the same model, controller and pages for the same fields are
   * the same names. In particular two runs that differ only in the title
   * write different controllers and pages.
   */
  lemma GeneratedFilesDetermineNames(n1: Names, n2: Names, fields: seq<Field>)
    ensures (ModelFileFor(n1.model, fields) == ModelFileFor(n2.model, fields) &&
             ControllerFileFor(n1, fields) == ControllerFileFor(n2, fields) &&
             CreateViewFor(n1, fields) == CreateViewFor(n2, fields) &&
             IndexViewFor(n1, fields) == IndexViewFor(n2, fields)) ==> n1 == n2
  {
    if CreateViewFor(n1, fields) == CreateViewFor(n2, fields) {
      assert PageNamesOf(n1) == PageNamesOf(n2);
    }
  }
}
