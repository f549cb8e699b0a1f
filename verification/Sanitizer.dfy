/** What the controller lets cross into its database: bounded, redacted JSON values. */
module Sanitizer {

  const MAX_COLLECTION_ITEMS: nat := 256
  const MAX_VALUE_DEPTH: nat := 8
  const MAX_VALUE_STRING_LENGTH: nat := 4000
  const REDACTED: string := "[REDACTED]"

  datatype Key = Name(name: string) | NotText(number: int)
  datatype Field = Field(key: Key, value: Value)
  /** A Python value: a dictionary is its items in order, Other is anything JSON has no form for. */
  datatype Value =
    | Null | Bool(bool) | Int(int) | Float(number: real) | NonFinite | Text(text: string)
    | Dict(fields: seq<Field>) | List(items: seq<Value>) | Other

  datatype Error =
    | TooDeep | NotFinite | TooManyFields | KeyNotText | TooManyItems | Unsupported
    | NotAnObject | NotJson | TooLarge
  datatype Result<T> = Ok(value: T) | Err(error: Error)

  /** The parts given by regular expressions and the JSON encoder. */
  datatype Rules = Rules(
    sensitive: string -> bool,             // the key pattern matches
    message: string -> string,             // patterns replaced inside a string
    size: Value -> Result<nat>)            // length of the encoding, or a value the encoder refuses

  predicate Secret(rules: Rules, key: string) {
    key != "" && rules.sensitive(key)
  }

  function Cut(text: string): string {
    if |text| > MAX_VALUE_STRING_LENGTH then text[..MAX_VALUE_STRING_LENGTH] else text
  }

  // ---- the sanitizer -----------------------------------------------------------------------------------------------

  function Sanitize(rules: Rules, value: Value, key: string, depth: nat): Result<Value>
    decreases value
  {
    if Secret(rules, key) then Ok(Text(REDACTED))
    else if depth > MAX_VALUE_DEPTH then Err(TooDeep)
    else match value
      case Null => Ok(value)
      case Bool(_) => Ok(value)
      case Int(_) => Ok(value)
      case Float(_) => Ok(value)
      case NonFinite => Err(NotFinite)
      case Text(text) => Ok(Text(rules.message(Cut(text))))
      case Dict(fields) =>
        if |fields| > MAX_COLLECTION_ITEMS then Err(TooManyFields)
        else if exists i :: 0 <= i < |fields| && fields[i].key.NotText? then Err(KeyNotText)
        else (match SanitizeFields(rules, fields, depth + 1)
              case Ok(sanitized) => Ok(Dict(sanitized))
              case Err(error) => Err(error))
      case List(items) =>
        if |items| > MAX_COLLECTION_ITEMS then Err(TooManyItems)
        else (match SanitizeItems(rules, items, depth + 1)
              case Ok(sanitized) => Ok(List(sanitized))
              case Err(error) => Err(error))
      case Other => Err(Unsupported)
  }

  function SanitizeFields(rules: Rules, fields: seq<Field>, depth: nat): Result<seq<Field>>
    requires forall i :: 0 <= i < |fields| ==> fields[i].key.Name?
    decreases fields
  {
    if |fields| == 0 then Ok([]) else
      match SanitizeField(rules, fields[0], depth)
      case Err(error) => Err(error)
      case Ok(field) =>
        match SanitizeFields(rules, fields[1..], depth)
        case Err(error) => Err(error)
        case Ok(rest) => Ok([field] + rest)
  }

  function SanitizeField(rules: Rules, field: Field, depth: nat): Result<Field>
    requires field.key.Name?
    decreases field
  {
    match Sanitize(rules, field.value, field.key.name, depth)
    case Err(error) => Err(error)
    case Ok(value) => Ok(Field(field.key, value))
  }

  function SanitizeItems(rules: Rules, items: seq<Value>, depth: nat): Result<seq<Value>>
    decreases items
  {
    if |items| == 0 then Ok([]) else
      match Sanitize(rules, items[0], "", depth)
      case Err(error) => Err(error)
      case Ok(value) =>
        match SanitizeItems(rules, items[1..], depth)
        case Err(error) => Err(error)
        case Ok(rest) => Ok([value] + rest)
  }

  function SanitizeObject(rules: Rules, value: Value, maxBytes: nat): (r: Result<Value>)
    ensures r.Ok? ==> r.value.Dict? && rules.size(r.value).Ok? && rules.size(r.value).value <= maxBytes
  {
    match Sanitize(rules, value, "", 0)
    case Err(error) => Err(error)
    case Ok(sanitized) =>
      if !sanitized.Dict? then Err(NotAnObject)
      else match rules.size(sanitized)
        case Err(_) => Err(NotJson)
        case Ok(size) => if size > maxBytes then Err(TooLarge) else Ok(sanitized)
  }

  // ---- non-interference ---------------------------------------------------------------------------------------------

  /** The two values differ at most beneath sensitive keys. */
  ghost predicate Agree(rules: Rules, a: Value, b: Value, key: string)
    decreases a
  {
    if key != "" && rules.sensitive(key) then true
    else if a.Dict? && b.Dict? then FieldsAgree(rules, a.fields, b.fields)
    else if a.List? && b.List? then ItemsAgree(rules, a.items, b.items)
    else a == b
  }

  ghost predicate FieldsAgree(rules: Rules, a: seq<Field>, b: seq<Field>)
    decreases a
  {
    |a| == |b| && forall i :: 0 <= i < |a| ==> FieldAgrees(rules, a[i], b[i])
  }

  ghost predicate FieldAgrees(rules: Rules, a: Field, b: Field)
    decreases a
  {
    a.key == b.key && if a.key.Name? then Agree(rules, a.value, b.value, a.key.name) else a.value == b.value
  }

  ghost predicate ItemsAgree(rules: Rules, a: seq<Value>, b: seq<Value>)
    decreases a
  {
    |a| == |b| && forall i :: 0 <= i < |a| ==> Agree(rules, a[i], b[i], "")
  }

  /** What lies beneath a sensitive key shows neither in the result nor in whether, or how, it is refused. */
  lemma {:induction false} NonInterference(rules: Rules, a: Value, b: Value, key: string, depth: nat)
    requires Agree(rules, a, b, key)
    ensures Sanitize(rules, a, key, depth) == Sanitize(rules, b, key, depth)
    decreases a
  {
    if !Secret(rules, key) && depth <= MAX_VALUE_DEPTH {
      if a.Dict? && b.Dict? {
        forall i | 0 <= i < |a.fields| ensures a.fields[i].key == b.fields[i].key {
          assert FieldAgrees(rules, a.fields[i], b.fields[i]);
        }
        if forall i :: 0 <= i < |a.fields| ==> a.fields[i].key.Name? {
          FieldsNonInterference(rules, a.fields, b.fields, depth + 1);
        }
      } else if a.List? && b.List? {
        ItemsNonInterference(rules, a.items, b.items, depth + 1);
      }
    }
  }

  lemma {:induction false} FieldsNonInterference(rules: Rules, a: seq<Field>, b: seq<Field>, depth: nat)
    requires FieldsAgree(rules, a, b)
    requires forall i :: 0 <= i < |a| ==> a[i].key.Name? && b[i].key.Name?
    ensures SanitizeFields(rules, a, depth) == SanitizeFields(rules, b, depth)
    decreases a
  {
    if |a| > 0 {
      FieldNonInterference(rules, a[0], b[0], depth);
      FieldsNonInterference(rules, a[1..], b[1..], depth);
    }
  }

  lemma FieldNonInterference(rules: Rules, a: Field, b: Field, depth: nat)
    requires FieldAgrees(rules, a, b) && a.key.Name?
    ensures SanitizeField(rules, a, depth) == SanitizeField(rules, b, depth)
    decreases a
  {
    NonInterference(rules, a.value, b.value, a.key.name, depth);
  }

  lemma {:induction false} ItemsNonInterference(rules: Rules, a: seq<Value>, b: seq<Value>, depth: nat)
    requires ItemsAgree(rules, a, b)
    ensures SanitizeItems(rules, a, depth) == SanitizeItems(rules, b, depth)
    decreases a
  {
    if |a| > 0 {
      NonInterference(rules, a[0], b[0], "", depth);
      ItemsNonInterference(rules, a[1..], b[1..], depth);
    }
  }

  /** The same for a whole payload, size check included. */
  lemma ObjectNonInterference(rules: Rules, a: Value, b: Value, maxBytes: nat)
    requires Agree(rules, a, b, "")
    ensures SanitizeObject(rules, a, maxBytes) == SanitizeObject(rules, b, maxBytes)
  {
    NonInterference(rules, a, b, "", 0);
  }

  // ---- exactly what is accepted, and what comes out ---------------------------------------------------------------

  /** Shallow enough, small enough, finite, with text keys, of JSON form - except beneath sensitive keys. */
  ghost predicate Fits(rules: Rules, value: Value, key: string, depth: nat)
    decreases value
  {
    (key != "" && rules.sensitive(key)) ||
    (depth <= 8 && !value.NonFinite? && !value.Other? &&
     (value.Dict? ==> |value.fields| <= 256 && FieldsFit(rules, value.fields, depth + 1)) &&
     (value.List? ==> |value.items| <= 256 && ItemsFit(rules, value.items, depth + 1)))
  }

  ghost predicate FieldsFit(rules: Rules, fields: seq<Field>, depth: nat)
    decreases fields
  {
    forall i :: 0 <= i < |fields| ==> FieldFits(rules, fields[i], depth)
  }

  ghost predicate FieldFits(rules: Rules, field: Field, depth: nat)
    decreases field
  {
    field.key.Name? && Fits(rules, field.value, field.key.name, depth)
  }

  ghost predicate ItemsFit(rules: Rules, items: seq<Value>, depth: nat)
    decreases items
  {
    forall i :: 0 <= i < |items| ==> Fits(rules, items[i], "", depth)
  }

  /** `out` is `value` with every sensitive field replaced by the marker, every other string cut to its first four
      thousand characters and then cleaned, and nothing added, dropped or reordered. */
  ghost predicate Cleaned(rules: Rules, value: Value, out: Value, key: string)
    decreases value
  {
    if key != "" && rules.sensitive(key) then out == Text("[REDACTED]")
    else match value
      case Text(text) => out == Text(rules.message(if |text| <= 4000 then text else text[..4000]))
      case Dict(fields) => out.Dict? && FieldsCleaned(rules, fields, out.fields)
      case List(items) => out.List? && ItemsCleaned(rules, items, out.items)
      case _ => out == value
  }

  ghost predicate FieldsCleaned(rules: Rules, fields: seq<Field>, out: seq<Field>)
    decreases fields
  {
    |out| == |fields| && forall i :: 0 <= i < |fields| ==> FieldCleaned(rules, fields[i], out[i])
  }

  ghost predicate FieldCleaned(rules: Rules, field: Field, out: Field)
    decreases field
  {
    out.key == field.key && field.key.Name? && Cleaned(rules, field.value, out.value, field.key.name)
  }

  ghost predicate ItemsCleaned(rules: Rules, items: seq<Value>, out: seq<Value>)
    decreases items
  {
    |out| == |items| && forall i :: 0 <= i < |items| ==> Cleaned(rules, items[i], out[i], "")
  }

  /** A value is accepted exactly when it fits, and then it comes out cleaned and fitting again. */
  lemma {:induction false} SanitizeExact(rules: Rules, value: Value, key: string, depth: nat)
    ensures var r := Sanitize(rules, value, key, depth);
            && (r.Ok? <==> Fits(rules, value, key, depth))
            && (r.Ok? ==> Cleaned(rules, value, r.value, key) && Fits(rules, r.value, key, depth))
    decreases value
  {
    if !Secret(rules, key) && depth <= MAX_VALUE_DEPTH {
      if value.Dict? && |value.fields| <= MAX_COLLECTION_ITEMS {
        if forall i :: 0 <= i < |value.fields| ==> value.fields[i].key.Name? {
          FieldsExact(rules, value.fields, depth + 1);
        } else {
          var i :| 0 <= i < |value.fields| && value.fields[i].key.NotText?;
          assert !FieldFits(rules, value.fields[i], depth + 1);
        }
      } else if value.List? && |value.items| <= MAX_COLLECTION_ITEMS {
        ItemsExact(rules, value.items, depth + 1);
      }
    }
  }

  lemma {:induction false} FieldsExact(rules: Rules, fields: seq<Field>, depth: nat)
    requires forall i :: 0 <= i < |fields| ==> fields[i].key.Name?
    ensures var r := SanitizeFields(rules, fields, depth);
            && (r.Ok? <==> FieldsFit(rules, fields, depth))
            && (r.Ok? ==> FieldsCleaned(rules, fields, r.value) && FieldsFit(rules, r.value, depth))
    decreases fields
  {
    if |fields| > 0 {
      FieldExact(rules, fields[0], depth);
      FieldsExact(rules, fields[1..], depth);
      var r, rest := SanitizeFields(rules, fields, depth), SanitizeFields(rules, fields[1..], depth);
      assert fields == [fields[0]] + fields[1..];
      assert FieldsFit(rules, fields, depth)
        <==> FieldFits(rules, fields[0], depth) && FieldsFit(rules, fields[1..], depth);
    }
  }

  lemma FieldExact(rules: Rules, field: Field, depth: nat)
    requires field.key.Name?
    ensures var r := SanitizeField(rules, field, depth);
            && (r.Ok? <==> FieldFits(rules, field, depth))
            && (r.Ok? ==> FieldCleaned(rules, field, r.value) && FieldFits(rules, r.value, depth))
    decreases field
  {
    SanitizeExact(rules, field.value, field.key.name, depth);
  }

  lemma {:induction false} ItemsExact(rules: Rules, items: seq<Value>, depth: nat)
    ensures var r := SanitizeItems(rules, items, depth);
            && (r.Ok? <==> ItemsFit(rules, items, depth))
            && (r.Ok? ==> ItemsCleaned(rules, items, r.value) && ItemsFit(rules, r.value, depth))
    decreases items
  {
    if |items| > 0 {
      SanitizeExact(rules, items[0], "", depth);
      ItemsExact(rules, items[1..], depth);
      var r, rest := SanitizeItems(rules, items, depth), SanitizeItems(rules, items[1..], depth);
      assert items == [items[0]] + items[1..];
      assert ItemsFit(rules, items, depth) <==> Fits(rules, items[0], "", depth) && ItemsFit(rules, items[1..], depth);
    }
  }

  /** A payload is accepted exactly if it is an object that fits and whose cleaned form can be encoded within the limit;
      that form is the answer. */
  lemma ObjectExact(rules: Rules, value: Value, maxBytes: nat)
    ensures var r := SanitizeObject(rules, value, maxBytes);
            && (r.Ok? ==> Cleaned(rules, value, r.value, ""))
            && (r.Ok? <==>
                  && value.Dict? && Fits(rules, value, "", 0)
                  && exists out :: Cleaned(rules, value, out, "") && rules.size(out).Ok?
                                   && rules.size(out).value <= maxBytes)
  {
    SanitizeExact(rules, value, "", 0);
    var sanitized := Sanitize(rules, value, "", 0);
    if sanitized.Ok? {
      forall out | Cleaned(rules, value, out, "") ensures out == sanitized.value {
        CleanedOnce(rules, value, out, sanitized.value, "");
      }
    }
  }

  /** There is one cleaned form. */
  lemma {:induction false} CleanedOnce(rules: Rules, value: Value, a: Value, b: Value, key: string)
    requires Cleaned(rules, value, a, key) && Cleaned(rules, value, b, key)
    ensures a == b
    decreases value
  {
    if !(key != "" && rules.sensitive(key)) {
      if value.Dict? {
        forall i | 0 <= i < |value.fields| ensures a.fields[i] == b.fields[i] {
          assert FieldCleaned(rules, value.fields[i], a.fields[i]) && FieldCleaned(rules, value.fields[i], b.fields[i]);
          CleanedOnce(rules, value.fields[i].value, a.fields[i].value, b.fields[i].value, value.fields[i].key.name);
        }
      } else if value.List? {
        forall i | 0 <= i < |value.items| ensures a.items[i] == b.items[i] {
          CleanedOnce(rules, value.items[i], a.items[i], b.items[i], "");
        }
      }
    }
  }
}
