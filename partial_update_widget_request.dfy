/** `PartialUpdateWidgetRequest`: the validation rules of `PATCH /api/widgets/{widget}`.
    Every rule is `sometimes`, so a field the request leaves out is never checked; a field
    that is present is checked against its own rules only. The validated array is what
    `WidgetService.update` fills into the row. */
module PartialUpdateWidgetRequest {
  import opened Common
  import opened Widgets
  import WidgetService

  /** The attributes that carry rules; `validated()` keeps only these. */
  const Fields: set<string> := {"name", "description", "price", "quantity", "status", "metadata"}

  const MaxNameLength: nat := 255
  const MaxDescriptionLength: nat := 1000
  /** `max:999999.99`, in cents. */
  const MaxPriceCents: int := 99999999

  /** `authorize`: every caller may send the request. */
  function Authorize(): (allowed: bool)
    ensures allowed
  {
    true
  }

  /** A string that trims to nothing: the validator runs no rule of this request on it
      (none of them is implicit). */
  predicate Skipped(v: Json) {
    v.JStr? && IsBlank(v.s)
  }

  /** The value of a JSON number in cents, as `numeric` and `min`/`max` read it. */
  function NumberCents(v: Json): Option<int> {
    match v
    case JInt(i) => Some(i * 100)
    case JCents(c) => Some(c)
    case _ => None
  }

  /** What PHP's `filter_var(..., FILTER_VALIDATE_INT)` accepts: an integer, a float with no
      fraction, or `true` (which reads as 1). */
  function IntegerValue(v: Json): Option<int> {
    match v
    case JInt(i) => Some(i)
    case JCents(c) => if c % 100 == 0 then Some(c / 100) else None
    case JBool(b) => if b then Some(1) else None
    case _ => None
  }

  /** `'sometimes', 'string', 'max:255', unique(widgets.name) ignoring this widget`. The
      unique rule sees trashed rows too. */
  predicate NameOk(v: Json, rows: seq<Widget>, widgetId: nat) {
    Skipped(v) || (v.JStr? && |v.s| <= MaxNameLength && !WidgetService.NameTaken(rows, v.s, widgetId))
  }

  /** `'sometimes', 'nullable', 'string', 'max:1000'`. */
  predicate DescriptionOk(v: Json) {
    v.JNull? || Skipped(v) || (v.JStr? && |v.s| <= MaxDescriptionLength)
  }

  /** `'sometimes', 'nullable', 'numeric', 'min:0', 'max:999999.99'`. */
  predicate PriceOk(v: Json) {
    v.JNull? || Skipped(v) || (NumberCents(v).Some? && 0 <= NumberCents(v).value <= MaxPriceCents)
  }

  /** `'sometimes', 'nullable', 'integer', 'min:0'`. */
  predicate QuantityOk(v: Json) {
    v.JNull? || Skipped(v) || (IntegerValue(v).Some? && IntegerValue(v).value >= 0)
  }

  /** `'sometimes', 'nullable', 'in:active,inactive,archived'`. */
  predicate StatusOk(v: Json) {
    v.JNull? || Skipped(v) || (v.JStr? && v.s in Statuses)
  }

  /** `'sometimes', 'nullable', 'array'`: a JSON list or object is a PHP array. */
  predicate MetadataOk(v: Json) {
    v.JNull? || Skipped(v) || v.JArr? || v.JObj?
  }

  /** The six attributes that carry rules. */
  datatype Field = NameField | DescriptionField | PriceField | QuantityField | StatusField | MetadataField

  const AllFields: set<Field> :=
    {NameField, DescriptionField, PriceField, QuantityField, StatusField, MetadataField}

  /** The key of the attribute in the request body. */
  function Key(f: Field): (k: string)
    ensures k in Fields
  {
    match f
    case NameField => "name"
    case DescriptionField => "description"
    case PriceField => "price"
    case QuantityField => "quantity"
    case StatusField => "status"
    case MetadataField => "metadata"
  }

  lemma KeyInjective(f: Field, g: Field)
    ensures Key(f) == Key(g) <==> f == g
  {
    if f != g {
      assert Key(f)[0] != Key(g)[0] || |Key(f)| != |Key(g)|;
    }
  }

  /** The attributes with rules are exactly the widget's fillable attributes, so `fill`
      accepts every validated key. */
  lemma RuledKeysAreFillable()
    ensures forall k :: k in Fields <==> k in Widgets.Fillable
  {
  }

  /** The rules of attribute `f` on value `v`. */
  predicate Passes(f: Field, v: Json, rows: seq<Widget>, widgetId: nat) {
    match f
    case NameField => NameOk(v, rows, widgetId)
    case DescriptionField => DescriptionOk(v)
    case PriceField => PriceOk(v)
    case QuantityField => QuantityOk(v)
    case StatusField => StatusOk(v)
    case MetadataField => MetadataOk(v)
  }

  /** `rules()` applied to the request body `input` for widget `widgetId` among `rows`: the
      attributes with an error (none means the request passes). Only a present attribute
      can fail, and only by its own rules on its own value. */
  function Validate(input: map<string, Json>, rows: seq<Widget>, widgetId: nat): (errors: set<Field>)
    ensures forall f :: f in errors <==> Key(f) in input && !Passes(f, input[Key(f)], rows, widgetId)
  {
    set f | f in AllFields && Key(f) in input && !Passes(f, input[Key(f)], rows, widgetId)
  }

  /** A blank string passes every rule, and `null` every rule except `name`'s. */
  lemma BlankAndNullPass(input: map<string, Json>, rows: seq<Widget>, widgetId: nat)
    ensures forall f :: Key(f) in input && Skipped(input[Key(f)]) ==> f !in Validate(input, rows, widgetId)
    ensures forall f :: f != NameField && Key(f) in input && input[Key(f)] == JNull ==>
              f !in Validate(input, rows, widgetId)
    ensures "name" in input && input["name"] == JNull ==> NameField in Validate(input, rows, widgetId)
  {
  }

  /** `name`: a string of at most 255 characters that no other row holds. */
  lemma NameRule(input: map<string, Json>, rows: seq<Widget>, widgetId: nat)
    requires "name" in input && !Skipped(input["name"])
    ensures NameField in Validate(input, rows, widgetId) <==>
            !input["name"].JStr? || |input["name"].s| > 255 || WidgetService.NameTaken(rows, input["name"].s, widgetId)
  {
  }

  /** `description`: null or a string of at most 1000 characters. */
  lemma DescriptionRule(input: map<string, Json>, rows: seq<Widget>, widgetId: nat)
    requires "description" in input && !Skipped(input["description"])
    ensures DescriptionField in Validate(input, rows, widgetId) <==>
            !input["description"].JNull? && (!input["description"].JStr? || |input["description"].s| > 1000)
  {
  }

  /** `price`: null or a number from 0 to 999999.99. */
  lemma PriceRule(input: map<string, Json>, rows: seq<Widget>, widgetId: nat)
    requires "price" in input && !Skipped(input["price"])
    ensures PriceField in Validate(input, rows, widgetId) <==>
            !input["price"].JNull? &&
            (NumberCents(input["price"]).None? || NumberCents(input["price"]).value < 0 ||
             NumberCents(input["price"]).value > 99999999)
  {
  }

  /** `quantity`: null or a whole number of at least 0. */
  lemma QuantityRule(input: map<string, Json>, rows: seq<Widget>, widgetId: nat)
    requires "quantity" in input && !Skipped(input["quantity"])
    ensures QuantityField in Validate(input, rows, widgetId) <==>
            !input["quantity"].JNull? &&
            (IntegerValue(input["quantity"]).None? || IntegerValue(input["quantity"]).value < 0)
  {
  }

  /** `status`: null or one of the three enum values. */
  lemma StatusRule(input: map<string, Json>, rows: seq<Widget>, widgetId: nat)
    requires "status" in input && !Skipped(input["status"])
    ensures StatusField in Validate(input, rows, widgetId) <==>
            !input["status"].JNull? && (!input["status"].JStr? || input["status"].s !in Statuses)
  {
  }

  /** `metadata`: null, a list or an object. */
  lemma MetadataRule(input: map<string, Json>, rows: seq<Widget>, widgetId: nat)
    requires "metadata" in input && !Skipped(input["metadata"])
    ensures MetadataField in Validate(input, rows, widgetId) <==>
            !(input["metadata"].JNull? || input["metadata"].JArr? || input["metadata"].JObj?)
  {
  }

  /** `validated()`: the present attributes that carry rules; any other key is dropped. */
  function Validated(input: map<string, Json>): (v: map<string, Json>)
    ensures v.Keys == input.Keys * Fields
    ensures forall k :: k in v ==> v[k] == input[k]
  {
    map k | k in input.Keys * Fields :: input[k]
  }

  function StringValue(v: Json): Option<string> {
    if v.JStr? then Some(v.s) else None
  }

  /** The `array` cast stores a JSON object; an empty list is the empty array. */
  function MetadataValue(v: Json): Option<Metadata> {
    match v
    case JObj(m) => Some(m)
    case JArr(items) => if items == [] then Some(map[]) else None
    case _ => None
  }

  /** The attribute `key` of the validated array: absent, or present with the column value
      `conv` reads from it (`None` is SQL null). */
  function Attribute<T>(v: map<string, Json>, key: string, conv: Json -> Option<T>): (a: Option<Option<T>>)
    ensures a.Some? <==> key in v
    ensures key in v ==> a == Some(conv(v[key]))
  {
    if key in v then Some(conv(v[key])) else None
  }

  /** The attributes `update` fills from the request: one per validated field. */
  function FillData(input: map<string, Json>): (data: WidgetService.WidgetInput)
    ensures data.name.Some? <==> "name" in input
    ensures data.description.Some? <==> "description" in input
    ensures data.price.Some? <==> "price" in input
    ensures data.quantity.Some? <==> "quantity" in input
    ensures data.status.Some? <==> "status" in input
    ensures data.metadata.Some? <==> "metadata" in input
  {
    var v := Validated(input);
    WidgetService.WidgetInput(
      Attribute(v, "name", StringValue),
      Attribute(v, "description", StringValue),
      Attribute(v, "price", NumberCents),
      Attribute(v, "quantity", IntegerValue),
      Attribute(v, "status", StringValue),
      Attribute(v, "metadata", MetadataValue))
  }

  /** A key without a rule never reaches the row, whatever it holds (`processed_at`
      included): the request cannot write the job-owned columns. */
  lemma ExtraKeysIgnored(input: map<string, Json>, k: string, j: Json, rows: seq<Widget>, widgetId: nat)
    requires k !in Fields
    ensures FillData(input[k := j]) == FillData(input)
    ensures Validate(input[k := j], rows, widgetId) == Validate(input, rows, widgetId)
  {
    assert Validated(input[k := j]) == Validated(input);
    forall f ensures f in Validate(input[k := j], rows, widgetId) <==> f in Validate(input, rows, widgetId) {
      assert Key(f) != k;
    }
  }

  /** Leaving an attribute out removes its error and no other. */
  lemma OmittingAField(input: map<string, Json>, g: Field, rows: seq<Widget>, widgetId: nat)
    ensures Validate(input - {Key(g)}, rows, widgetId) == Validate(input, rows, widgetId) - {g}
  {
    forall f ensures f in Validate(input - {Key(g)}, rows, widgetId) <==> f in Validate(input, rows, widgetId) - {g} {
      KeyInjective(f, g);
    }
  }

  /** An empty body passes and fills nothing, so the update leaves the row's attributes. */
  lemma EmptyPatch(w: Widget, rows: seq<Widget>, widgetId: nat)
    ensures Validate(map[], rows, widgetId) == {}
    ensures WidgetService.Fill(w, FillData(map[])) == w
  {
    assert FillData(map[]) == WidgetService.NoInput;
    WidgetService.FillLaws(w, WidgetService.NoInput);
  }

  /** Patching only the price passes and changes nothing but the price. */
  lemma PatchPriceOnly(w: Widget, rows: seq<Widget>)
    ensures var input := map["price" := JCents(1999)];
            var r := WidgetService.Fill(w, FillData(input));
            && Validate(input, rows, w.id) == {}
            && !WidgetService.Rejected(rows, FillData(input), w.id)
            && r.price == Some(1999) && r.name == w.name && r.quantity == w.quantity
            && r.status == w.status && r.description == w.description && r.metadata == w.metadata
  {
    var input := map["price" := JCents(1999)];
    assert Validated(input) == input;
    forall f ensures f !in Validate(input, rows, w.id) {
      KeyInjective(f, PriceField);
    }
  }

  /** A blank-free body: what the request pipeline's string trimming and nulling delivers. */
  predicate NoBlankStrings(input: map<string, Json>) {
    forall k :: k in input ==> !Skipped(input[k])
  }

  /** Once a body passes, the database refuses the write exactly when it sets `quantity` or
      `status` to null: both rules allow null but both columns are NOT NULL. */
  lemma ValidationGap(input: map<string, Json>, rows: seq<Widget>, widgetId: nat)
    requires NoBlankStrings(input) && Validate(input, rows, widgetId) == {}
    ensures WidgetService.Rejected(rows, FillData(input), widgetId) <==>
            ("quantity" in input && input["quantity"] == JNull) || ("status" in input && input["status"] == JNull)
  {
    forall f ensures Key(f) in input ==> Passes(f, input[Key(f)], rows, widgetId) {
      assert f !in Validate(input, rows, widgetId);
    }
    assert "name" in input ==> Passes(NameField, input["name"], rows, widgetId);
    assert "quantity" in input ==> Passes(QuantityField, input["quantity"], rows, widgetId);
    assert "status" in input ==> Passes(StatusField, input["status"], rows, widgetId);
  }

  /** The finding: `{"quantity": null}` passes validation and is then refused by the
      database, so the client sees a server error instead of a validation error. */
  lemma NullQuantityPassesYetRejected(rows: seq<Widget>, widgetId: nat)
    ensures var input := map["quantity" := JNull];
            Validate(input, rows, widgetId) == {} && WidgetService.Rejected(rows, FillData(input), widgetId)
  {
    var input := map["quantity" := JNull];
    assert Validated(input) == input;
    forall f ensures f !in Validate(input, rows, widgetId) {
      KeyInjective(f, QuantityField);
    }
  }

  /** The same for `{"status": null}`. */
  lemma NullStatusPassesYetRejected(rows: seq<Widget>, widgetId: nat)
    ensures var input := map["status" := JNull];
            Validate(input, rows, widgetId) == {} && WidgetService.Rejected(rows, FillData(input), widgetId)
  {
    var input := map["status" := JNull];
    assert Validated(input) == input;
    forall f ensures f !in Validate(input, rows, widgetId) {
      KeyInjective(f, StatusField);
    }
  }

  /** `quantity` as evidently intended, `'sometimes', 'integer', 'min:0'`: null fails. */
  predicate QuantityOkIntended(v: Json) {
    Skipped(v) || (IntegerValue(v).Some? && IntegerValue(v).value >= 0)
  }

  /** `status` as evidently intended, `'sometimes', 'in:active,inactive,archived'`. */
  predicate StatusOkIntended(v: Json) {
    Skipped(v) || (v.JStr? && v.s in Statuses)
  }

  /** The rules as evidently intended: `quantity` and `status` without `nullable`, matching
      their NOT NULL columns; every other attribute keeps its rules. */
  predicate PassesIntended(f: Field, v: Json, rows: seq<Widget>, widgetId: nat) {
    match f
    case QuantityField => QuantityOkIntended(v)
    case StatusField => StatusOkIntended(v)
    case _ => Passes(f, v, rows, widgetId)
  }

  /** The corrected `rules()` applied to `input`: the attributes with an error. */
  function ValidateIntended(input: map<string, Json>, rows: seq<Widget>, widgetId: nat): (errors: set<Field>)
    ensures forall f :: f in errors <==> Key(f) in input && !PassesIntended(f, input[Key(f)], rows, widgetId)
  {
    set f | f in AllFields && Key(f) in input && !PassesIntended(f, input[Key(f)], rows, widgetId)
  }

  /** The corrected rules reject what the as-written rules reject, plus exactly a null
      `quantity` or `status`. */
  lemma IntendedAddsNullChecks(input: map<string, Json>, rows: seq<Widget>, widgetId: nat)
    ensures ValidateIntended(input, rows, widgetId) == Validate(input, rows, widgetId) + NullInNotNull(input)
  {
    forall f ensures f in ValidateIntended(input, rows, widgetId) <==>
                     f in Validate(input, rows, widgetId) + NullInNotNull(input) {
      if f == QuantityField {
        KeyInjective(f, StatusField);
      } else if f == StatusField {
        KeyInjective(f, QuantityField);
      } else {
        KeyInjective(f, QuantityField);
        KeyInjective(f, StatusField);
      }
    }
  }

  /** The attributes whose column is NOT NULL and that the body sets to null. */
  function NullInNotNull(input: map<string, Json>): (fs: set<Field>)
    ensures QuantityField in fs <==> "quantity" in input && input["quantity"] == JNull
    ensures StatusField in fs <==> "status" in input && input["status"] == JNull
    ensures fs <= {QuantityField, StatusField}
  {
    (if "quantity" in input && input["quantity"] == JNull then {QuantityField} else {}) +
    (if "status" in input && input["status"] == JNull then {StatusField} else {})
  }

  /** Under the intended rules, a body that passes is never refused by the database. */
  lemma IntendedValidationNeverRejected(input: map<string, Json>, rows: seq<Widget>, widgetId: nat)
    requires NoBlankStrings(input) && ValidateIntended(input, rows, widgetId) == {}
    ensures !WidgetService.Rejected(rows, FillData(input), widgetId)
  {
    IntendedAddsNullChecks(input, rows, widgetId);
    assert QuantityField !in NullInNotNull(input) && StatusField !in NullInNotNull(input);
    ValidationGap(input, rows, widgetId);
  }
}
