/** The parts of an XEP-0004 data form that data-form based types read and
    write: typed fields with a key and a value, and the form's type.  A field
    value is Qt's QVariant restricted to the kinds these types store, and the
    conversions below are the ones Qt documents for those kinds. */
module DataForm {
  import opened Wrappers
  import Decimal

  /** QXmppDataForm::Field::Type. */
  datatype FieldType =
    | BooleanField | FixedField | HiddenField | JidMultiField | JidSingleField
    | ListMultiField | ListSingleField | TextMultiField | TextPrivateField | TextSingleField

  /** QXmppDataForm::Type; `NoType` is the null type a new form has. */
  datatype FormType = NoType | Form | Submit | Cancel | Result

  /** A field value: the null QVariant, a (non-null) string, a string list or
      a boolean. */
  datatype Value = Null | Text(text: string) | TextList(list: seq<string>) | Flag(flag: bool)

  datatype Field = Field(fieldType: FieldType, key: string, value: Value)

  datatype Form = DataForm(formType: FormType, fields: seq<Field>)

  /** A field as QXmppDataForm::Field(type, key) builds it: no value yet. */
  function EmptyField(t: FieldType, key: string): (f: Field)
    ensures f.fieldType == t && f.key == key && f.value.Null?
  {
    Field(t, key, Null)
  }

  /** QVariant::toString: None is the null string.  A string list converts
      only when it has exactly one element. */
  function ToText(v: Value): (r: Option<string>)
    ensures v.Text? ==> r == Some(v.text)
    ensures v.Null? ==> r.None?
  {
    match v
    case Null => None
    case Text(s) => Some(s)
    case TextList(l) => if |l| == 1 then Some(l[0]) else None
    case Flag(b) => Some(if b then "true" else "false")
  }

  /** QVariant::toStringList: a string becomes a one-element list; what does
      not convert gives the empty list. */
  function ToTextList(v: Value): (r: seq<string>)
    ensures v.TextList? ==> r == v.list
    ensures v.Null? ==> r == []
  {
    match v
    case Null => []
    case Text(s) => [s]
    case TextList(l) => l
    case Flag(_) => []
  }

  function LowerAscii(c: char): char {
    if 'A' <= c <= 'Z' then (c as int - 'A' as int + 'a' as int) as char else c
  }

  /** `s` spells "false" in any mix of letter case. */
  predicate IsFalseWord(s: string) {
    |s| == 5 && LowerAscii(s[0]) == 'f' && LowerAscii(s[1]) == 'a' && LowerAscii(s[2]) == 'l'
      && LowerAscii(s[3]) == 's' && LowerAscii(s[4]) == 'e'
  }

  /** QVariant::toBool: a string is true unless it is empty, "0" or "false"
      (in any letter case); the null value and lists are false. */
  function ToFlag(v: Value): (r: bool)
    ensures v.Flag? ==> r == v.flag
    ensures v.Null? ==> !r
  {
    match v
    case Null => false
    case Text(s) => !(|s| == 0 || s == "0" || IsFalseWord(s))
    case TextList(_) => false
    case Flag(b) => b
  }

  /** QVariant::toUInt without a success flag (Qt 5): a string is read with
      QString::toULongLong and the result is cast to uint, so a number of up
      to 64 bits keeps its low 32 bits and anything else gives 0; a boolean is
      1 or 0; anything else is 0. */
  function ToCount(v: Value): (r: nat)
    ensures r < Decimal.UINT32_LIMIT
  {
    match v
    case Text(s) => Decimal.ToULongLong(s).GetOr(0) % Decimal.UINT32_LIMIT
    case Flag(b) => if b then 1 else 0
    case _ => 0
  }

  /** A text toUInt reads is read to the same number; a larger number of up
      to 64 bits wraps modulo 2^32 without being refused; text that spells
      no number, or one of 64 bits or more, gives 0. */
  lemma ToCountOfText(s: string)
    ensures Decimal.ToUInt(s).Some? ==> ToCount(Text(s)) == Decimal.ToUInt(s).value
    ensures Decimal.ToULongLong(s).Some? ==> ToCount(Text(s)) == Decimal.ToULongLong(s).value % Decimal.UINT32_LIMIT
    ensures Decimal.ToULongLong(s).None? ==> ToCount(Text(s)) == 0
  {
    var v := Decimal.ToULongLong(s);
    if Decimal.ToUInt(s).Some? {
      assert v == Decimal.ToUInt(s);
      Decimal.SmallModulo(v.value);
    }
  }

  /** A number written in decimal reads back modulo 2^32 when it has at
      most 64 bits: 4294967296 reads as 0 and 4294967297 as 1. */
  lemma ToCountOfNumber(n: nat)
    requires n < Decimal.UINT64_LIMIT
    ensures ToCount(Text(Decimal.NatToString(n))) == n % Decimal.UINT32_LIMIT
  {
    Decimal.ToULongLongOfNatToString(n);
    assert ToCount(Text(Decimal.NatToString(n))) == Decimal.ToULongLong(Decimal.NatToString(n)).value % Decimal.UINT32_LIMIT;
  }

  /** The strings the boolean values convert to convert back to them. */
  lemma FlagTextRoundTrip(b: bool)
    ensures ToFlag(Text(ToText(Flag(b)).value)) == b
  {
    if !b {
      assert IsFalseWord("false");
    }
  }

  /** QXmppDataForm::formType: the value of the hidden FORM_TYPE field, or
      the empty string when the form has none. */
  function FormTypeOf(form: Form): string {
    FormTypeFrom(form.fields, 0)
  }

  predicate IsFormTypeField(f: Field) {
    f.fieldType == HiddenField && f.key == "FORM_TYPE"
  }

  function FormTypeFrom(fields: seq<Field>, start: nat): (r: string)
    requires start <= |fields|
    ensures start < |fields| && IsFormTypeField(fields[start]) ==> r == ToText(fields[start].value).GetOr("")
    ensures (forall i :: start <= i < |fields| ==> !IsFormTypeField(fields[i])) ==> r == ""
    decreases |fields| - start
  {
    if start == |fields| then ""
    else if IsFormTypeField(fields[start]) then ToText(fields[start].value).GetOr("")
    else FormTypeFrom(fields, start + 1)
  }
}
