/** The option validator: the three required options are checked for presence, in a
    fixed order, before anything else happens. */
module OptionsCheck {
  import opened Wrappers

  /** The caller's options. Every field may be missing (`None`). */
  datatype Options = Options(
    email: Option<string>,
    key: Option<string>,
    spreadsheetId: Option<string>,
    sheet: Option<string>,
    retention: Option<int>,
    keyName: Option<string>)

  /** The required options, in the order they are checked. */
  datatype Field = Email | Key | SpreadsheetId

  const Required: seq<Field> := [Email, Key, SpreadsheetId]

  /** The option's name as it appears in the error message. */
  function FieldName(f: Field): string {
    match f
    case Email => "email"
    case Key => "key"
    case SpreadsheetId => "spreadsheetId"
  }

  /** The message of the `TypeError` thrown for a missing option. */
  function MissingMessage(f: Field): (m: string)
    // the message quotes the option's name after `parameter "`
    ensures |m| > 11 + |FieldName(f)| && m[..11] == "parameter \""
    ensures m[11..11 + |FieldName(f)|] == FieldName(f) && m[11 + |FieldName(f)|] == '"'
  {
    "parameter \"" + FieldName(f) + "\" is missing"
  }

  /** The three messages differ, so the message tells which option is missing. */
  lemma MissingMessagesDiffer(f: Field, g: Field)
    requires f != g
    ensures MissingMessage(f) != MissingMessage(g)
  {
    var m, n := MissingMessage(f), MissingMessage(g);
    if |FieldName(f)| < |FieldName(g)| {
      assert m[11 + |FieldName(f)|] == '"' != n[11 + |FieldName(f)|];
    } else {
      assert n[11 + |FieldName(g)|] == '"' != m[11 + |FieldName(g)|];
    }
  }

  function FieldValue(options: Options, f: Field): Option<string> {
    match f
    case Email => options.email
    case Key => options.key
    case SpreadsheetId => options.spreadsheetId
  }

  /** JavaScript truthiness of an optional string: missing and "" are falsy. */
  predicate Present(o: Option<string>) {
    o.Some? && o.value != ""
  }

  /** What `validateOptions` does: return normally, or throw a `TypeError` naming one
      option. */
  datatype Validation = Valid | Missing(field: Field)

  function ValidateOptions(options: Options): (r: Validation)
    ensures r.Missing? ==> !Present(FieldValue(options, r.field))
    ensures r.Valid? <==> forall f :: f in Required ==> Present(FieldValue(options, f))
  {
    if !Present(options.email) then Missing(Email)
    else if !Present(options.key) then Missing(Key)
    else if !Present(options.spreadsheetId) then Missing(SpreadsheetId)
    else Valid
  }

  /** The required options that are missing, in checking order. */
  function MissingFields(options: Options, fields: seq<Field>): (r: seq<Field>)
    ensures forall f :: f in r <==> f in fields && !Present(FieldValue(options, f))
  {
    if fields == [] then []
    else if Present(FieldValue(options, fields[0])) then MissingFields(options, fields[1..])
    else [fields[0]] + MissingFields(options, fields[1..])
  }

  /** When several options are missing, the first of them in the order email, key,
      spreadsheetId is the one reported; with none missing the call returns normally. */
  lemma ReportsFirstMissing(options: Options)
    ensures var missing := MissingFields(options, Required);
      ValidateOptions(options) == if missing == [] then Valid else Missing(missing[0])
  {
    var rest := MissingFields(options, [Key, SpreadsheetId]);
    var last := MissingFields(options, [SpreadsheetId]);
    assert [Key, SpreadsheetId][1..] == [SpreadsheetId];
    assert [SpreadsheetId][1..] == [] && MissingFields(options, []) == [];
    assert MissingFields(options, Required)
        == (if Present(options.email) then [] else [Email]) + rest;
    assert rest == (if Present(options.key) then [] else [Key]) + last;
    assert last == if Present(options.spreadsheetId) then [] else [SpreadsheetId];
  }

  /** Only the three required options are looked at. */
  lemma IgnoresOtherOptions(options: Options, sheet: Option<string>, retention: Option<int>,
                            keyName: Option<string>)
    ensures ValidateOptions(options)
         == ValidateOptions(options.(sheet := sheet, retention := retention, keyName := keyName))
  {
  }

  /** The four cases of the client's tests. */
  lemma ValidateOptionsExamples()
    ensures ValidateOptions(Options(None, Some("key"), Some("spreadsheetId"), None, None, None))
         == Missing(Email)
    ensures ValidateOptions(Options(Some("email"), None, Some("spreadsheetId"), None, None, None))
         == Missing(Key)
    ensures ValidateOptions(Options(Some("email"), Some("key"), None, None, None, None))
         == Missing(SpreadsheetId)
    ensures ValidateOptions(Options(Some("email"), Some("key"), Some("spreadsheetId"), None, None, None))
         == Valid
    ensures ValidateOptions(Options(Some(""), Some("key"), Some("spreadsheetId"), None, None, None))
         == Missing(Email)
  {
  }
}
