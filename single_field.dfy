/**
 * What a single `name:label:type` argument becomes: the parsed field and the
 * fragment each table picks for it, followed through from the argument text.
 */
module SingleField {
  import opened Wrappers
  import opened Strings
  import opened FieldSpec
  import opened TypeTables

  /** An argument made of three colon-free segments splits into exactly those segments. */
  lemma SplitThree(name: string, caption: string, typ: string)
    requires ':' !in name && ':' !in caption && ':' !in typ
    ensures Split(name + ":" + caption + ":" + typ, ':') == [name, caption, typ]
    ensures WellFormed(name + ":" + caption + ":" + typ)
  {
    SplitNoSeparator(name, ':');
    SplitAppendPart(name, caption, ':');
    SplitAppendPart(name + ":" + caption, typ, ':');
    assert name + ":" + caption == name + [':'] + caption;
    assert name + ":" + caption + ":" + typ == (name + ":" + caption) + [':'] + typ;
  }

  /** A supported type is accepted with the name as given, the caption unquoted and the type normalised. */
  lemma AcceptedField(name: string, caption: string, typ: string, infl: Inflector)
    requires ':' !in name && ':' !in caption && ':' !in typ
    requires KeywordType(ToLower(TrimQuotes(typ))).Some?
    ensures var o := ParseOne(name + ":" + caption + ":" + typ, infl);
            o.Accepted? && o.field.name == name && o.field.caption == TrimQuotes(caption) &&
            o.field.ftype == Normalise(KeywordType(ToLower(TrimQuotes(typ))).value)
  {
    SplitThree(name, caption, typ);
  }

  /** An unsupported type is skipped, and the warning names the type as written, quotes trimmed. */
  lemma UnknownTypeSkipped(name: string, caption: string, typ: string, infl: Inflector)
    requires ':' !in name && ':' !in caption && ':' !in typ
    requires KeywordType(ToLower(TrimQuotes(typ))).None?
    ensures ParseOne(name + ":" + caption + ":" + typ, infl) == SkippedType(TrimQuotes(typ))
  {
    SplitThree(name, caption, typ);
  }

  /**
   * A `moeda` field, in any letter case, is parsed as a float: a float cast,
   * the `numeric` rule, a number prop, the 0.01-step number input and a float
   * column. The currency input is never chosen for it.
   */
  lemma CurrencyFieldIsPlainFloat(name: string, caption: string, typ: string, infl: Inflector)
    requires ':' !in name && ':' !in caption && ':' !in typ
    requires ToLower(TrimQuotes(typ)) == Keyword(Moeda)
    requires !StartsWith(name, ForeignPrefix)
    ensures var o := ParseOne(name + ":" + caption + ":" + typ, infl);
            o.Accepted? && o.field.ftype == Float &&
            CastFor(o.field.ftype) == Some(CastFloat) && RuleText(o.field.ftype) == "required|numeric|max:255" &&
            PropTypeFor(o.field.ftype) == TsNumber &&
            WidgetFor(o.field) == NumberInput("0.01") && WidgetFor(o.field) != CurrencyInput &&
            ColumnFor(o.field, infl) == Typed("float", name)
  {
    var o := ParseOne(name + ":" + caption + ":" + typ, infl);
    KeywordRoundTrip(Moeda);
    AcceptedField(name, caption, typ, infl);
    assert o.Accepted? && o.field.ftype == Float && !o.field.isForeign;
    FloatArms(o.field, infl);
  }

  /** The arms every table picks for a non-foreign float field. */
  lemma FloatArms(f: Field, infl: Inflector)
    requires f.ftype == Float && !f.isForeign
    ensures CastFor(f.ftype) == Some(CastFloat) && RuleText(f.ftype) == "required|numeric|max:255"
    ensures PropTypeFor(f.ftype) == TsNumber
    ensures WidgetFor(f) == NumberInput("0.01") && ColumnFor(f, infl) == Typed("float", f.name)
  {
  }

  /**
   * An `id_` argument of a supported type is a foreign key whatever its type:
   * its related model comes from the rest of the name, it gets the select
   * over `<name>Options` and a constrained column on its model's table.
   */
  lemma ForeignFieldArtifacts(rest: string, caption: string, typ: string, infl: Inflector)
    requires ':' !in rest && ':' !in caption && ':' !in typ
    requires !Contains(rest, ForeignPrefix)
    requires KeywordType(ToLower(TrimQuotes(typ))).Some?
    ensures var name := ForeignPrefix + rest;
            var o := ParseOne(name + ":" + caption + ":" + typ, infl);
            var model := UcFirst(infl.camel(rest));
            o.Accepted? && o.field.isForeign && o.field.relatedModel == model &&
            WidgetFor(o.field) == Select(name + "Options") &&
            ColumnFor(o.field, infl) == ForeignId(name, ToLower(infl.plural(model)))
  {
    var name := ForeignPrefix + rest;
    AcceptedField(name, caption, typ, infl);
    RelatedModelOfPrefixedName(rest, infl);
    var o := ParseOne(name + ":" + caption + ":" + typ, infl);
    assert name[..|ForeignPrefix|] == ForeignPrefix;
    assert StartsWith(o.field.name, ForeignPrefix);
    assert o.field.isForeign && o.field.relatedModel == UcFirst(infl.camel(rest));
  }
}
