/** QXmppDataFormBased: a type that converts to and from a data form through
    a table of field descriptors.  Each descriptor names a field (its type
    and key), says whether a form must carry it, and holds the two hooks that
    move its value between the field and the object.  The object is a value
    of type S: a parse hook returns the object with the field read into it,
    a serialize hook returns the value it writes into the field. */
module DataFormBased {
  import opened Wrappers
  import opened DataForm
  import Decimal
  import Lists

  /** Optional = false, Required = true. */
  datatype Descriptor<!S> = Descriptor(
    fieldType: FieldType,
    key: string,
    required: bool,
    parse: (S, Field) -> S,
    serialize: S -> Value)

  /** What a concrete data-form based type overrides: formType(),
      fieldDescriptors(), parseForm() and serializeForm(). */
  datatype Binding<!S> = Binding(
    formType: string,
    descriptors: seq<Descriptor<S>>,
    parseForm: (S, Form) -> S,
    serializeForm: (S, Form) -> Form)

  /** The base class's own overrides: no form type, no descriptors, a parseForm
      that reads nothing and a serializeForm that marks the form as a Form. */
  function BaseBinding<S>(): Binding<S> {
    Binding("", [], (s: S, form: Form) => s, (s: S, form: Form) => form.(formType := Form))
  }

  /** The field a descriptor writes when the object is `s`. */
  function FieldOf<S>(s: S): Descriptor<S> -> Field {
    (d: Descriptor<S>) => Field(d.fieldType, d.key, d.serialize(s))
  }

  /** The descriptor writes a value (not the null value) when the object is `s`. */
  function WritesValue<S>(s: S): Descriptor<S> -> bool {
    (d: Descriptor<S>) => !d.serialize(s).Null?
  }

  /** The hidden FORM_TYPE field, present when the form type is not empty. */
  function FormTypeFields(formType: string): (r: seq<Field>) {
    if formType != "" then [Field(HiddenField, "FORM_TYPE", Text(formType))] else []
  }

  /** The fields toDataForm collects before serializeForm runs: the FORM_TYPE
      field, then the field of every descriptor that writes a value, in
      descriptor order. */
  function CollectedFields<S>(b: Binding<S>, s: S): seq<Field> {
    FormTypeFields(b.formType) + Lists.Keep(b.descriptors, WritesValue(s), FieldOf(s))
  }

  /** toDataForm. */
  function ToDataFormSpec<S>(b: Binding<S>, s: S): Form {
    b.serializeForm(s, DataForm(NoType, CollectedFields(b, s)))
  }

  /** toDataForm as the loop that builds it. */
  method ToDataForm<S>(b: Binding<S>, s: S) returns (form: Form)
    ensures form == ToDataFormSpec(b, s)
  {
    var fields: seq<Field> := [];
    if b.formType != "" {
      fields := fields + [Field(HiddenField, "FORM_TYPE", Text(b.formType))];
    }
    var i := 0;
    while i < |b.descriptors|
      invariant 0 <= i <= |b.descriptors|
      invariant fields == FormTypeFields(b.formType) + Lists.Keep(b.descriptors[..i], WritesValue(s), FieldOf(s))
    {
      var d := b.descriptors[i];
      assert b.descriptors[..i + 1] == b.descriptors[..i] + [d];
      Lists.KeepSnoc(b.descriptors[..i], d, WritesValue(s), FieldOf(s));
      var field := EmptyField(d.fieldType, d.key).(value := d.serialize(s));
      if !field.value.Null? {
        fields := fields + [field];
      }
      i := i + 1;
    }
    assert b.descriptors[..i] == b.descriptors;
    form := b.serializeForm(s, DataForm(NoType, fields));
  }

  /** The field a descriptor accepts: an equal key, and the descriptor's type
      or the hidden type. */
  predicate Accepts<S>(d: Descriptor<S>, f: Field) {
    (f.fieldType == d.fieldType || f.fieldType == HiddenField) && f.key == d.key
  }

  /** std::find_if over the fields from `start`: the index of the first field
      the descriptor accepts. */
  function FindField<S>(fields: seq<Field>, d: Descriptor<S>, start: nat): (r: Option<nat>)
    requires start <= |fields|
    ensures r.Some? ==> start <= r.value < |fields| && Accepts(d, fields[r.value])
    ensures r.Some? ==> forall j :: start <= j < r.value ==> !Accepts(d, fields[j])
    ensures r.None? <==> forall j :: start <= j < |fields| ==> !Accepts(d, fields[j])
    decreases |fields| - start
  {
    if start == |fields| then None
    else if Accepts(d, fields[start]) then Some(start)
    else FindField(fields, d, start + 1)
  }

  /** The outcome of fromDataForm: whether it succeeded, and the object as
      the parse hooks left it (in place, so also after a failure). */
  datatype Parsed<S> = Parsed(ok: bool, output: S)

  /** The descriptor loop of fromDataForm from descriptor `i` on: parse each
      descriptor's field, stop with a failure at the first required
      descriptor without one. */
  function ParseFields<S>(fields: seq<Field>, descriptors: seq<Descriptor<S>>, i: nat, s: S): Parsed<S>
    requires i <= |descriptors|
    decreases |descriptors| - i
  {
    if i == |descriptors| then Parsed(true, s)
    else
      var d := descriptors[i];
      match FindField(fields, d, 0)
      case Some(j) => ParseFields(fields, descriptors, i + 1, d.parse(s, fields[j]))
      case None => if d.required then Parsed(false, s) else ParseFields(fields, descriptors, i + 1, s)
  }

  /** fromDataForm: parseForm, then the descriptor loop. */
  function FromDataFormSpec<S>(form: Form, b: Binding<S>, output: S): Parsed<S> {
    ParseFields(form.fields, b.descriptors, 0, b.parseForm(output, form))
  }

  /** fromDataForm as the loop with an early return. */
  method FromDataForm<S>(form: Form, b: Binding<S>, output: S) returns (ok: bool, parsed: S)
    ensures Parsed(ok, parsed) == FromDataFormSpec(form, b, output)
  {
    parsed := b.parseForm(output, form);
    var i := 0;
    while i < |b.descriptors|
      invariant 0 <= i <= |b.descriptors|
      invariant ParseFields(form.fields, b.descriptors, i, parsed) == FromDataFormSpec(form, b, output)
    {
      var d := b.descriptors[i];
      var found := FindField(form.fields, d, 0);
      if found.Some? {
        parsed := d.parse(parsed, form.fields[found.value]);
      } else if d.required {
        return false, parsed;
      }
      i := i + 1;
    }
    return true, parsed;
  }

  /** fromDataForm fails exactly when some required descriptor finds no field
      it accepts, whatever the parse hooks do. */
  lemma {:induction false} ParseFieldsFails<S>(fields: seq<Field>, descriptors: seq<Descriptor<S>>, i: nat, s: S)
    requires i <= |descriptors|
    ensures !ParseFields(fields, descriptors, i, s).ok <==>
      exists j :: i <= j < |descriptors| && descriptors[j].required && FindField(fields, descriptors[j], 0).None?
    decreases |descriptors| - i
  {
    if i < |descriptors| {
      var d := descriptors[i];
      match FindField(fields, d, 0)
      case Some(k) =>
        ParseFieldsFails(fields, descriptors, i + 1, d.parse(s, fields[k]));
      case None =>
        ParseFieldsFails(fields, descriptors, i + 1, s);
    }
  }

  /** The same, for a whole form. */
  lemma FromDataFormFails<S>(form: Form, b: Binding<S>, output: S)
    ensures !FromDataFormSpec(form, b, output).ok <==>
      exists j :: 0 <= j < |b.descriptors| && b.descriptors[j].required && FindField(form.fields, b.descriptors[j], 0).None?
  {
    ParseFieldsFails(form.fields, b.descriptors, 0, b.parseForm(output, form));
  }

  /** A form none of whose fields a descriptor accepts, read with only
      optional descriptors, succeeds and leaves the object as it was. */
  lemma {:induction false} NothingToRead<S>(fields: seq<Field>, descriptors: seq<Descriptor<S>>, i: nat, s: S)
    requires i <= |descriptors|
    requires forall j :: i <= j < |descriptors| ==> !descriptors[j].required && FindField(fields, descriptors[j], 0).None?
    ensures ParseFields(fields, descriptors, i, s) == Parsed(true, s)
    decreases |descriptors| - i
  {
    if i < |descriptors| {
      NothingToRead(fields, descriptors, i + 1, s);
    }
  }

  /** The base class writes an empty Form and accepts any form unchanged. */
  lemma BaseDefaults<S>(s: S, form: Form)
    ensures ToDataFormSpec(BaseBinding<S>(), s) == DataForm(Form, [])
    ensures FromDataFormSpec(form, BaseBinding<S>(), s) == Parsed(true, s)
  {
  }

  /** The fields toDataForm collects: FORM_TYPE first exactly when the form
      type is not empty; after it only fields with a value, each the field of
      a descriptor; and the field of every descriptor that writes a value. */
  lemma CollectedFieldsShape<S>(b: Binding<S>, s: S)
    ensures b.formType != "" ==> |CollectedFields(b, s)| > 0 && CollectedFields(b, s)[0] == Field(HiddenField, "FORM_TYPE", Text(b.formType))
    ensures b.formType == "" ==> CollectedFields(b, s) == Lists.Keep(b.descriptors, WritesValue(s), FieldOf(s))
    ensures forall f :: f in Lists.Keep(b.descriptors, WritesValue(s), FieldOf(s)) ==>
      !f.value.Null? && exists d :: d in b.descriptors && f == Field(d.fieldType, d.key, d.serialize(s))
    ensures forall d :: d in b.descriptors && !d.serialize(s).Null? ==>
      Field(d.fieldType, d.key, d.serialize(s)) in Lists.Keep(b.descriptors, WritesValue(s), FieldOf(s))
  {
    KeptFields(b.descriptors, s);
  }

  /** Every kept field comes from a descriptor that writes a value, and every
      such descriptor's field is kept. */
  lemma KeptFields<S>(descriptors: seq<Descriptor<S>>, s: S)
    ensures forall f :: f in Lists.Keep(descriptors, WritesValue(s), FieldOf(s)) ==>
      !f.value.Null? && exists d :: d in descriptors && f == Field(d.fieldType, d.key, d.serialize(s))
    ensures forall d :: d in descriptors && !d.serialize(s).Null? ==>
      Field(d.fieldType, d.key, d.serialize(s)) in Lists.Keep(descriptors, WritesValue(s), FieldOf(s))
  {
    Lists.KeepMembers(descriptors, WritesValue(s), FieldOf(s));
  }

  /** A form toDataForm wrote (with a serializeForm that keeps the fields)
      names the type's form type. */
  lemma ToDataFormNamesFormType<S>(b: Binding<S>, s: S)
    requires b.formType != ""
    requires ToDataFormSpec(b, s).fields == CollectedFields(b, s)
    ensures FormTypeOf(ToDataFormSpec(b, s)) == b.formType
  {
    CollectedFieldsShape(b, s);
  }

  /** Reading back what toDataForm wrote (with a serializeForm that keeps the
      fields) succeeds whenever every required descriptor writes a value. */
  lemma ToDataFormAccepted<S>(b: Binding<S>, s: S, output: S)
    requires ToDataFormSpec(b, s).fields == CollectedFields(b, s)
    requires forall d :: d in b.descriptors && d.required ==> !d.serialize(s).Null?
    ensures FromDataFormSpec(ToDataFormSpec(b, s), b, output).ok
  {
    var form := ToDataFormSpec(b, s);
    var kept := Lists.Keep(b.descriptors, WritesValue(s), FieldOf(s));
    CollectedFieldsShape(b, s);
    FromDataFormFails(form, b, output);
    forall j | 0 <= j < |b.descriptors| && b.descriptors[j].required
      ensures FindField(form.fields, b.descriptors[j], 0).Some?
    {
      var d := b.descriptors[j];
      var f := Field(d.fieldType, d.key, d.serialize(s));
      assert f in kept;
      var k :| 0 <= k < |kept| && kept[k] == f;
      assert form.fields[|FormTypeFields(b.formType)| + k] == f;
      assert Accepts(d, f);
    }
  }

  /** No two descriptors share a key, and none uses the key of the FORM_TYPE
      field. */
  predicate DistinctKeys<S>(descriptors: seq<Descriptor<S>>) {
    (forall i, j :: 0 <= i < j < |descriptors| ==> descriptors[i].key != descriptors[j].key)
    && (forall i :: 0 <= i < |descriptors| ==> descriptors[i].key != "FORM_TYPE")
  }

  /** The object after every descriptor from `i` on that wrote a value for
      `s` has parsed that very field into `acc`. */
  function ReadBack<S>(descriptors: seq<Descriptor<S>>, i: nat, s: S, acc: S): S
    requires i <= |descriptors|
    decreases |descriptors| - i
  {
    if i == |descriptors| then acc
    else
      var d := descriptors[i];
      ReadBack(descriptors, i + 1, s, if WritesValue(s)(d) then d.parse(acc, FieldOf(s)(d)) else acc)
  }

  /** With distinct keys, the field a descriptor finds in what toDataForm
      collected is the one it wrote itself, and it finds one exactly when it
      wrote a value. */
  lemma FindWritten<S>(b: Binding<S>, s: S, i: nat)
    requires DistinctKeys(b.descriptors) && i < |b.descriptors|
    ensures FindField(CollectedFields(b, s), b.descriptors[i], 0).Some? <==> WritesValue(s)(b.descriptors[i])
    ensures FindField(CollectedFields(b, s), b.descriptors[i], 0).Some? ==>
      CollectedFields(b, s)[FindField(CollectedFields(b, s), b.descriptors[i], 0).value] == FieldOf(s)(b.descriptors[i])
  {
    var d := b.descriptors[i];
    var fields := CollectedFields(b, s);
    var header := FormTypeFields(b.formType);
    var kept := Lists.Keep(b.descriptors, WritesValue(s), FieldOf(s));
    Lists.KeepMembers(b.descriptors, WritesValue(s), FieldOf(s));
    forall k | 0 <= k < |fields| && Accepts(d, fields[k])
      ensures fields[k] == FieldOf(s)(d) && WritesValue(s)(d)
    {
      assert k >= |header|;
      assert fields[k] == kept[k - |header|];
      assert fields[k] in kept;
      var j :| 0 <= j < |b.descriptors| && WritesValue(s)(b.descriptors[j]) && fields[k] == FieldOf(s)(b.descriptors[j]);
      assert j == i;
    }
    if WritesValue(s)(d) {
      assert FieldOf(s)(d) in kept;
      var k :| 0 <= k < |kept| && kept[k] == FieldOf(s)(d);
      assert fields[|header| + k] == FieldOf(s)(d);
      assert Accepts(d, fields[|header| + k]);
    }
  }

  /** The descriptor loop over what toDataForm collected parses every written
      field back with its own descriptor. */
  lemma {:induction false} ReadBackFields<S>(b: Binding<S>, s: S, i: nat, acc: S)
    requires DistinctKeys(b.descriptors) && i <= |b.descriptors|
    requires forall d :: d in b.descriptors && d.required ==> WritesValue(s)(d)
    ensures ParseFields(CollectedFields(b, s), b.descriptors, i, acc) == Parsed(true, ReadBack(b.descriptors, i, s, acc))
    decreases |b.descriptors| - i
  {
    if i < |b.descriptors| {
      var d := b.descriptors[i];
      FindWritten(b, s, i);
      if WritesValue(s)(d) {
        ReadBackFields(b, s, i + 1, d.parse(acc, FieldOf(s)(d)));
      } else {
        ReadBackFields(b, s, i + 1, acc);
      }
    }
  }

  /** Reading back what toDataForm wrote (with a serializeForm that keeps the
      fields): with distinct keys and every required descriptor writing a
      value, fromDataForm succeeds and each descriptor parses the field it
      wrote. */
  lemma ToDataFormReadBack<S>(b: Binding<S>, s: S, output: S)
    requires ToDataFormSpec(b, s).fields == CollectedFields(b, s)
    requires DistinctKeys(b.descriptors)
    requires forall d :: d in b.descriptors && d.required ==> WritesValue(s)(d)
    ensures FromDataFormSpec(ToDataFormSpec(b, s), b, output) ==
      Parsed(true, ReadBack(b.descriptors, 0, s, b.parseForm(output, ToDataFormSpec(b, s))))
  {
    ReadBackFields(b, s, 0, b.parseForm(output, ToDataFormSpec(b, s)));
  }

  // The hooks the concrete types build their descriptors from.  Each reads
  // a field into a value or writes a value into a field; a nullable string
  // is an Option, None being the null string.

  /** parseString. */
  function ParseString(f: Field): Option<string> {
    ToText(f.value)
  }

  /** serializeString: only a non-null string is written. */
  function SerializeString(f: Field, value: Option<string>): (r: Field)
    ensures r.value.Null? <==> value.None? && f.value.Null?
  {
    if value.Some? then f.(value := Text(value.value)) else f
  }

  /** parseStringList. */
  function ParseStringList(f: Field): seq<string> {
    ToTextList(f.value)
  }

  /** serializeStringList: only a non-empty list is written. */
  function SerializeStringList(f: Field, value: seq<string>): (r: Field)
    ensures r.value.Null? <==> value == [] && f.value.Null?
  {
    if |value| > 0 then f.(value := TextList(value)) else f
  }

  /** parseOptionalBool: always gives a value, false when the field holds
      nothing that converts to true. */
  function ParseOptionalBool(f: Field): (r: Option<bool>)
    ensures r.Some?
  {
    Some(ToFlag(f.value))
  }

  /** serializeOptionalBool: only a present value is written. */
  function SerializeOptionalBool(f: Field, value: Option<bool>): (r: Field)
    ensures r.value.Null? <==> value.None? && f.value.Null?
  {
    if value.Some? then f.(value := Flag(value.value)) else f
  }

  /** parseOptionalUInt as written: the text read as a signed 32-bit number,
      stored in an unsigned 32-bit value (a negative number wraps around);
      None when the text is not such a number. */
  function ParseOptionalUIntAsWritten(f: Field): (r: Option<nat>)
    ensures r.Some? ==> r.value < Decimal.UINT32_LIMIT
  {
    match Decimal.ToInt(ToText(f.value).GetOr(""))
    case Some(i) => Some(WrapUInt32(i))
    case None => None
  }

  /** An int stored in a quint32: reduced modulo 2^32. */
  function WrapUInt32(i: int): (r: nat)
    ensures r < Decimal.UINT32_LIMIT
    ensures 0 <= i < Decimal.UINT32_LIMIT ==> r == i
    ensures -Decimal.UINT32_LIMIT <= i < 0 ==> r == i + Decimal.UINT32_LIMIT
  {
    i % Decimal.UINT32_LIMIT
  }

  /** parseOptionalUInt read as an unsigned number, the inverse of
      serializeOptionalUInt; the value types use this one. */
  function ParseOptionalUInt(f: Field): (r: Option<nat>)
    ensures r.Some? ==> r.value < Decimal.UINT32_LIMIT
  {
    Decimal.ToUInt(ToText(f.value).GetOr(""))
  }

  /** serializeOptionalUInt: a present value is written in decimal. */
  function SerializeOptionalUInt(f: Field, value: Option<nat>): (r: Field)
    ensures r.value.Null? <==> value.None? && f.value.Null?
  {
    if value.Some? then f.(value := Text(Decimal.NatToString(value.value))) else f
  }

  /** Each serialize hook writes nothing for an absent value, and each parse
      hook reads back what its serialize hook wrote. */
  lemma HookRoundTrips(t: FieldType, key: string, s: Option<string>, l: seq<string>, b: bool)
    ensures ParseString(SerializeString(EmptyField(t, key), s)) == s
    ensures ParseStringList(SerializeStringList(EmptyField(t, key), l)) == l
    ensures ParseOptionalBool(SerializeOptionalBool(EmptyField(t, key), Some(b))) == Some(b)
    ensures SerializeOptionalBool(EmptyField(t, key), None).value.Null?
  {
  }

  /** The unsigned reader reads back every unsigned 32-bit value written. */
  lemma OptionalUIntRoundTrip(t: FieldType, key: string, n: nat)
    requires n < Decimal.UINT32_LIMIT
    ensures ParseOptionalUInt(SerializeOptionalUInt(EmptyField(t, key), Some(n))) == Some(n)
  {
    Decimal.ToUIntOfNatToString(n);
  }

  /** The reader as written agrees with it up to the signed 32-bit maximum... */
  lemma OptionalUIntAsWrittenSmall(t: FieldType, key: string, n: nat)
    requires n <= Decimal.INT32_MAX
    ensures ParseOptionalUIntAsWritten(SerializeOptionalUInt(EmptyField(t, key), Some(n))) == Some(n)
  {
    var f := SerializeOptionalUInt(EmptyField(t, key), Some(n));
    assert ToText(f.value).GetOr("") == Decimal.NatToString(n);
    Decimal.ToIntOfNatToString(n);
  }

  /** ...but loses every larger value: 2147483648 is written as
      "2147483648" and read back as no value. */
  lemma OptionalUIntAsWrittenLosesLarge(t: FieldType, key: string, n: nat)
    requires Decimal.INT32_MAX < n < Decimal.UINT32_LIMIT
    ensures ParseOptionalUIntAsWritten(SerializeOptionalUInt(EmptyField(t, key), Some(n))) == None
  {
    var f := SerializeOptionalUInt(EmptyField(t, key), Some(n));
    assert ToText(f.value).GetOr("") == Decimal.NatToString(n);
    Decimal.ToIntOfLargeNatToString(n);
  }

  /** ...and reads the text "-1" as 4294967295. */
  lemma OptionalUIntAsWrittenWrapsNegative(t: FieldType, key: string)
    ensures ParseOptionalUIntAsWritten(Field(t, key, Text("-1"))) == Some(4294967295)
    ensures ParseOptionalUInt(Field(t, key, Text("-1"))) == None
  {
    var f := Field(t, key, Text("-1"));
    assert ToText(f.value).GetOr("") == "-1";
    Decimal.MinusOne();
  }
}
