/**
 * The per-type projections the generator applies to each parsed field: the
 * model cast, the validation rule, the TypeScript prop type and form
 * default, the form widget and the migration column.
 */
module TypeTables {
  import opened Wrappers
  import opened Strings
  import opened FieldSpec

  /** The Eloquent cast a field gets in the model, if any. */
  datatype Cast = CastArray | CastFloat | CastDate

  function CastName(c: Cast): string
  {
    match c
    case CastArray => "array"
    case CastFloat => "float"
    case CastDate => "date"
  }

  /**
   * The cast table of `createModel`: every type without an arm gets no cast.
   * Each cast goes with one validation rule: float with `numeric`, date with
   * `date`, array with `array`.
   */
  function CastFor(t: FieldType): (r: Option<Cast>)
    ensures r == Some(CastFloat) <==> RuleFor(t) == NumericRule
    ensures r == Some(CastDate) <==> RuleFor(t) == DateRule
    ensures r == Some(CastArray) <==> RuleFor(t) == ArrayRule
  {
    match t
    case Files => Some(CastArray)
    case Float | Double | Decimal | Moeda => Some(CastFloat)
    case Date | DateTime | Timestamp => Some(CastDate)
    case _ => None
  }

  /** The Laravel validation rules the type-specific part of a rule can be. */
  datatype Rule = IntegerRule | NumericRule | EmailRule | DateRule | BooleanRule | JsonRule | FileRule | ArrayRule | StringRule

  function RuleName(r: Rule): string
  {
    match r
    case IntegerRule => "integer"
    case NumericRule => "numeric"
    case EmailRule => "email"
    case DateRule => "date"
    case BooleanRule => "boolean"
    case JsonRule => "json"
    case FileRule => "file"
    case ArrayRule => "array"
    case StringRule => "string"
  }

  /** The type-specific middle part of a validation rule; the default arm `string` is taken only by `string` and `text`. */
  function RuleFor(t: FieldType): (r: Rule)
    ensures r == StringRule <==> t == String || t == Text
  {
    match t
    case Integer | BigInteger => IntegerRule
    case Float | Double | Decimal | Moeda => NumericRule
    case Email => EmailRule
    case Date | DateTime | Timestamp => DateRule
    case Boolean => BooleanRule
    case Json => JsonRule
    case File => FileRule
    case Files => ArrayRule
    case _ => StringRule
  }

  /** The whole rule: always `required`, the type part, and always `max:255`. */
  function RuleText(t: FieldType): (r: string)
    ensures StartsWith(r, "required|")
    ensures |r| == |"required|"| + |RuleName(RuleFor(t))| + |"|max:255"|
    ensures r[|"required|"|..|r| - |"|max:255"|] == RuleName(RuleFor(t))
    ensures r[|r| - |"|max:255"|..] == "|max:255"
  {
    "required|" + RuleName(RuleFor(t)) + "|max:255"
  }

  /** The TypeScript type of a field's prop in the Vue pages. */
  datatype PropType = TsBoolean | TsNumber | TsString

  function PropTypeName(p: PropType): string
  {
    match p
    case TsBoolean => "boolean"
    case TsNumber => "number"
    case TsString => "string"
  }

  /**
   * The prop-type table of `createViews`; `moeda` has no arm and falls to
   * `string`. Apart from it, a number prop goes exactly with a numeric or
   * integer rule, and a boolean prop with the boolean rule.
   */
  function PropTypeFor(t: FieldType): (r: PropType)
    ensures t != Moeda ==> (r == TsNumber <==> RuleFor(t) == IntegerRule || RuleFor(t) == NumericRule)
    ensures r == TsBoolean <==> RuleFor(t) == BooleanRule
  {
    match t
    case Boolean => TsBoolean
    case Integer | BigInteger | Float | Double | Decimal => TsNumber
    case _ => TsString
  }

  /** The form default used when the edited item has no value for the field: the zero value of its prop type. */
  function FormDefaultFor(t: FieldType): (r: string)
    ensures r == match PropTypeFor(t)
                 case TsBoolean => "false"
                 case TsNumber => "0"
                 case TsString => "''"
  {
    match t
    case Boolean => "false"
    case Integer | BigInteger | Float | Double | Decimal => "0"
    case _ => "''"
  }

  /** The kind of input the create/edit page renders for a field. */
  datatype Widget =
    | Select(optionsProp: string)   // searchable select over the `<name>Options` prop
    | Checkbox
    | TextArea
    | DateInput
    | DateTimeInput                 // `datetime-local`
    | JsonTextArea
    | EmailInput
    | NumberInput(step: string)
    | CurrencyInput                 // text input that strips currency symbols
    | FileInput
    | MultiFileInput
    | TextInput

  /** The name of the prop (and of the controller variable) holding a foreign field's options. */
  function OptionsProp(f: Field): string
  {
    f.name + "Options"
  }

  /**
   * The `match (true)` of `createViews`: the foreign-key arm is tried first,
   * then one arm per type, with a plain text input as the default.
   */
  function WidgetFor(f: Field): (r: Widget)
    ensures r.Select? <==> f.isForeign
    ensures f.isForeign ==> r == Select(OptionsProp(f))
    ensures !f.isForeign ==> (r == CurrencyInput <==> f.ftype == Moeda)
  {
    if f.isForeign then Select(OptionsProp(f))
    else
      match f.ftype
      case Boolean => Checkbox
      case Text => TextArea
      case Date => DateInput
      case DateTime | Timestamp => DateTimeInput
      case Json => JsonTextArea
      case Email => EmailInput
      case Integer | BigInteger => NumberInput("1")
      case Float | Double | Decimal => NumberInput("0.01")
      case Moeda => CurrencyInput
      case File => FileInput
      case Files => MultiFileInput
      case String => TextInput
  }

  /** One statement of the migration's column list. */
  datatype Column =
    | ForeignId(name: string, table: string)   // foreignId(name)->constrained(table)->cascadeOnDelete()
    | Typed(builder: string, name: string)     // $table-><builder>(name)
    | DeletedFlag                              // boolean('deleted')->default(false)
    | Timestamps                               // timestamps()

  /** The schema-builder methods a field column may use. */
  const BuilderMethods: set<string> := {
    "string", "text", "integer", "bigInteger", "float", "double", "decimal",
    "boolean", "date", "datetime", "timestamp", "json"
  }

  /**
   * The schema-builder method of a non-foreign field: always a real builder
   * method; `email`, `file`, `files` and `moeda`, which the builder lacks,
   * are mapped, and every other type keeps its own name.
   */
  function ColumnMethod(t: FieldType): (r: string)
    ensures r in BuilderMethods
    ensures t !in {Email, Moeda, File, Files} ==> r == TypeName(t)
  {
    match t
    case Email => "string"
    case Moeda => "float"
    case File => "string"
    case Files => "json"
    case _ => TypeName(t)
  }

  /** The table a foreign field points to: the lower-cased plural of its related model. */
  function RelatedTable(f: Field, infl: Inflector): (r: string)
    ensures |r| == |infl.plural(f.relatedModel)|
    ensures forall i :: 0 <= i < |r| ==> !IsUpper(r[i])
  {
    ToLower(infl.plural(f.relatedModel))
  }

  /**
   * The column statement of one field: a foreign key references its related
   * table; any other field is a builder call on its own name.
   */
  function ColumnFor(f: Field, infl: Inflector): (r: Column)
    ensures f.isForeign ==> r == ForeignId(f.name, RelatedTable(f, infl))
    ensures !f.isForeign ==> r.Typed? && r.name == f.name && r.builder in BuilderMethods
  {
    if f.isForeign then ForeignId(f.name, RelatedTable(f, infl))
    else Typed(ColumnMethod(f.ftype), f.name)
  }

  /**
   * The tables agree with each other on every type a parsed field can have:
   * a float cast goes with the `numeric` rule, a number prop and a 0.01-step
   * input; a date cast goes with the `date` rule and a date or datetime
   * input; an array cast goes with the `array` rule and a multi-file input;
   * the `integer` rule goes with a number prop and a 1-step input.
   */
  lemma TablesAgree(t: FieldType)
    requires t != Moeda
    ensures forall name, caption, rel ::
              var w := WidgetFor(Field(name, caption, t, false, rel));
              (w == NumberInput("0.01") <==> RuleFor(t) == NumericRule) &&
              (w == NumberInput("1") <==> RuleFor(t) == IntegerRule) &&
              ((w == DateInput || w == DateTimeInput) <==> RuleFor(t) == DateRule) &&
              (w == MultiFileInput <==> RuleFor(t) == ArrayRule)
  {
  }

  /**
   * The one place the tables disagree is the `moeda` arm, which no parsed
   * field reaches: its rule is `numeric` and its column a float, but its prop
   * is a string with an empty-string default.
   */
  lemma MoedaArmsDisagree()
    ensures RuleFor(Moeda) == NumericRule && CastFor(Moeda) == Some(CastFloat) && ColumnMethod(Moeda) == "float"
    ensures PropTypeFor(Moeda) == TsString && FormDefaultFor(Moeda) == "''"
  {
  }
}
