/** The subscription options form of XEP-0060 (pubsub#subscribe_options):
    the options a subscriber sets, their defaults, the presence states
    notifications are restricted to, and the descriptor table that moves the
    options to and from a data form.  The expiry date is kept as its ISO 8601
    text, the empty text standing for no date. */
module PubSubSubscribeOptions {
  import opened Wrappers
  import opened DataForm
  import DataFormBased
  import Decimal
  import Lists

  /** The flags of PresenceState, one bit each (Unset is no bit). */
  datatype PresenceState = Online | Away | Chat | DoNotDisturb | ExtendedAway

  /** PresenceStates: a QFlags set over an 8-bit enum. */
  type PresenceStates = bv8

  const UNSET: PresenceStates := 0

  /** The bits the five flags use. */
  const KNOWN_STATES: PresenceStates := 0x1F

  function Bit(p: PresenceState): PresenceStates {
    match p
    case Online => 0x01
    case Away => 0x02
    case Chat => 0x04
    case DoNotDisturb => 0x08
    case ExtendedAway => 0x10
  }

  predicate Has(states: PresenceStates, p: PresenceState) {
    states & Bit(p) != 0
  }

  function HasIn(states: PresenceStates): PresenceState -> bool {
    p => Has(states, p)
  }

  /** The name of a flag in the pubsub#show-values field. */
  function StateName(p: PresenceState): string {
    match p
    case Online => "online"
    case Away => "away"
    case Chat => "chat"
    case DoNotDisturb => "dnd"
    case ExtendedAway => "xa"
  }

  /** The order in which presenceStatesToStringList lists the flags. */
  const WRITE_ORDER: seq<PresenceState> := [Away, Chat, DoNotDisturb, Online, ExtendedAway]

  /** The position of a name in the written order; 5 for any other text. */
  function NameRank(name: string): int {
    if name == "away" then 0
    else if name == "chat" then 1
    else if name == "dnd" then 2
    else if name == "online" then 3
    else if name == "xa" then 4
    else 5
  }

  /** presenceStatesFromStringList: the flag of every known name the list
      holds. */
  function StatesFromNames(values: seq<string>): PresenceStates {
    (if "away" in values then Bit(Away) else UNSET)
    | (if "chat" in values then Bit(Chat) else UNSET)
    | (if "dnd" in values then Bit(DoNotDisturb) else UNSET)
    | (if "online" in values then Bit(Online) else UNSET)
    | (if "xa" in values then Bit(ExtendedAway) else UNSET)
  }

  /** presenceStatesFromStringList as the source accumulates it. */
  method PresenceStatesFromStringList(values: seq<string>) returns (states: PresenceStates)
    ensures states == StatesFromNames(values)
  {
    states := UNSET;
    if "away" in values {
      states := states | Bit(Away);
    }
    if "chat" in values {
      states := states | Bit(Chat);
    }
    if "dnd" in values {
      states := states | Bit(DoNotDisturb);
    }
    if "online" in values {
      states := states | Bit(Online);
    }
    if "xa" in values {
      states := states | Bit(ExtendedAway);
    }
  }

  /** presenceStatesToStringList: the name of every flag set, in the written
      order. */
  function NamesOf(states: PresenceStates): seq<string> {
    Lists.Keep(WRITE_ORDER, HasIn(states), StateName)
  }

  /** presenceStatesToStringList as the source appends it. */
  method PresenceStatesToStringList(states: PresenceStates) returns (output: seq<string>)
    ensures output == NamesOf(states)
  {
    output := [];
    if Has(states, Away) {
      output := output + ["away"];
    }
    if Has(states, Chat) {
      output := output + ["chat"];
    }
    if Has(states, DoNotDisturb) {
      output := output + ["dnd"];
    }
    if Has(states, Online) {
      output := output + ["online"];
    }
    if Has(states, ExtendedAway) {
      output := output + ["xa"];
    }
    WrittenOrder(states);
  }

  /** The written list, one flag of the written order at a time. */
  lemma WrittenOrder(states: PresenceStates)
    ensures NamesOf(states) ==
      (if Has(states, Away) then ["away"] else []) + (if Has(states, Chat) then ["chat"] else [])
      + (if Has(states, DoNotDisturb) then ["dnd"] else []) + (if Has(states, Online) then ["online"] else [])
      + (if Has(states, ExtendedAway) then ["xa"] else [])
  {
    var w := WRITE_ORDER;
    assert w[..0] + [Away] == w[..1];
    assert w[..1] + [Chat] == w[..2];
    assert w[..2] + [DoNotDisturb] == w[..3];
    assert w[..3] + [Online] == w[..4];
    assert w[..4] + [ExtendedAway] == w;
    Lists.KeepSnoc(w[..0], Away, HasIn(states), StateName);
    Lists.KeepSnoc(w[..1], Chat, HasIn(states), StateName);
    Lists.KeepSnoc(w[..2], DoNotDisturb, HasIn(states), StateName);
    Lists.KeepSnoc(w[..3], Online, HasIn(states), StateName);
    Lists.KeepSnoc(w[..4], ExtendedAway, HasIn(states), StateName);
  }

  /** A flag is read from a list exactly when the list holds its name, and no
      bit outside the five flags is ever set. */
  lemma StatesFromNamesHas(values: seq<string>, p: PresenceState)
    ensures Has(StatesFromNames(values), p) <==> StateName(p) in values
    ensures StatesFromNames(values) & !KNOWN_STATES == 0
  {
  }

  /** Only which known names a list holds matters: unknown names and repeated
      names change nothing, and the empty list gives Unset. */
  lemma StatesFromNamesIgnores(values: seq<string>, others: seq<string>)
    requires forall p :: StateName(p) in values <==> StateName(p) in others
    ensures StatesFromNames(values) == StatesFromNames(others)
    ensures StatesFromNames([]) == UNSET
  {
    assert StateName(Away) in values <==> StateName(Away) in others;
    assert StateName(Chat) in values <==> StateName(Chat) in others;
    assert StateName(DoNotDisturb) in values <==> StateName(DoNotDisturb) in others;
    assert StateName(Online) in values <==> StateName(Online) in others;
    assert StateName(ExtendedAway) in values <==> StateName(ExtendedAway) in others;
  }

  /** The written list names exactly the flags set, and nothing else. */
  lemma NamesOfHas(states: PresenceStates)
    ensures forall p :: StateName(p) in NamesOf(states) <==> Has(states, p)
    ensures forall n :: n in NamesOf(states) ==> NameRank(n) < 5
  {
    Lists.KeepMembers(WRITE_ORDER, HasIn(states), StateName);
    forall p
      ensures StateName(p) in NamesOf(states) <==> Has(states, p)
    {
      var k := WriteIndex(p);
      if StateName(p) in NamesOf(states) {
        var j :| 0 <= j < |WRITE_ORDER| && HasIn(states)(WRITE_ORDER[j]) && StateName(p) == StateName(WRITE_ORDER[j]);
        assert WRITE_ORDER[j] == p;
      }
    }
  }

  /** Where a flag stands in the written order. */
  function WriteIndex(p: PresenceState): (k: nat)
    ensures k < |WRITE_ORDER| && WRITE_ORDER[k] == p
    ensures NameRank(StateName(p)) == k
  {
    match p
    case Away => 0
    case Chat => 1
    case DoNotDisturb => 2
    case Online => 3
    case ExtendedAway => 4
  }

  /** The written list follows the order away, chat, dnd, online, xa, so
      each name appears at most once. */
  lemma NamesOfOrdered(states: PresenceStates)
    ensures forall i, j :: 0 <= i < j < |NamesOf(states)| ==> NameRank(NamesOf(states)[i]) < NameRank(NamesOf(states)[j])
  {
    forall i | 0 <= i < |WRITE_ORDER|
      ensures NameRank(StateName(WRITE_ORDER[i])) == i
    {
      assert WriteIndex(WRITE_ORDER[i]) == i;
    }
    Lists.KeepOrdered(WRITE_ORDER, HasIn(states), StateName, NameRank);
  }

  /** Two sets of flags within the five bits that agree on every flag are
      equal. */
  lemma FlagsDetermine(a: PresenceStates, b: PresenceStates)
    requires a & !KNOWN_STATES == 0 && b & !KNOWN_STATES == 0
    requires forall p :: Has(a, p) <==> Has(b, p)
    ensures a == b
  {
    assert Has(a, Online) <==> Has(b, Online);
    assert Has(a, Away) <==> Has(b, Away);
    assert Has(a, Chat) <==> Has(b, Chat);
    assert Has(a, DoNotDisturb) <==> Has(b, DoNotDisturb);
    assert Has(a, ExtendedAway) <==> Has(b, ExtendedAway);
  }

  /** Every combination of the five flags survives being written as a list
      and read back. */
  lemma PresenceStatesRoundTrip(states: PresenceStates)
    requires states & !KNOWN_STATES == 0
    ensures StatesFromNames(NamesOf(states)) == states
  {
    NamesOfHas(states);
    forall p
      ensures Has(StatesFromNames(NamesOf(states)), p) <==> Has(states, p)
    {
      StatesFromNamesHas(NamesOf(states), p);
    }
    StatesFromNamesHas(NamesOf(states), Online);
    FlagsDetermine(StatesFromNames(NamesOf(states)), states);
  }

  datatype SubscriptionType = Items | Nodes

  datatype SubscriptionDepth = TopLevelOnly | Recursive

  /** The pubsub#subscription_type parser: "items" and "nodes" set the type,
      any other text leaves it as it was. */
  function ParseSubscriptionType(prior: Option<SubscriptionType>, text: string): Option<SubscriptionType> {
    if text == "items" then Some(Items)
    else if text == "nodes" then Some(Nodes)
    else prior
  }

  /** The pubsub#subscription_type serializer: nothing when unset. */
  function SubscriptionTypeValue(t: Option<SubscriptionType>): Value {
    match t
    case None => Null
    case Some(Items) => Text("items")
    case Some(Nodes) => Text("nodes")
  }

  /** The pubsub#subscription_depth parser: "1" and "all" set the depth, any
      other text leaves it as it was. */
  function ParseSubscriptionDepth(prior: Option<SubscriptionDepth>, text: string): Option<SubscriptionDepth> {
    if text == "1" then Some(TopLevelOnly)
    else if text == "all" then Some(Recursive)
    else prior
  }

  function SubscriptionDepthValue(d: Option<SubscriptionDepth>): Value {
    match d
    case None => Null
    case Some(TopLevelOnly) => Text("1")
    case Some(Recursive) => Text("all")
  }

  /** A set type or depth is written as a text its parser reads back whatever
      the prior value; an unset one writes nothing; any other text leaves the
      prior value. */
  lemma TypeAndDepthCodec(t: SubscriptionType, pt: Option<SubscriptionType>, d: SubscriptionDepth, pd: Option<SubscriptionDepth>, text: string)
    ensures ParseSubscriptionType(pt, ToText(SubscriptionTypeValue(Some(t))).value) == Some(t)
    ensures SubscriptionTypeValue(None).Null?
    ensures text != "items" && text != "nodes" ==> ParseSubscriptionType(pt, text) == pt
    ensures ParseSubscriptionDepth(pd, ToText(SubscriptionDepthValue(Some(d))).value) == Some(d)
    ensures SubscriptionDepthValue(None).Null?
    ensures text != "1" && text != "all" ==> ParseSubscriptionDepth(pd, text) == pd
  {
  }

  datatype SubscribeOptions = SubscribeOptions(
    notificationsEnabled: bool,
    digestsEnabled: bool,
    digestFrequencyMs: nat,
    expire: string,
    bodyIncluded: bool,
    notificationRules: PresenceStates,
    subscriptionType: Option<SubscriptionType>,
    subscriptionDepth: Option<SubscriptionDepth>)

  /** The options of a default-constructed object as written: bodyIncluded is
      not initialised, so it holds whatever `indeterminate` is. */
  function DefaultsAsWritten(indeterminate: bool): SubscribeOptions {
    SubscribeOptions(true, false, 0, "", indeterminate, Bit(Online), Some(Items), Some(TopLevelOnly))
  }

  /** The default options with bodyIncluded initialised to false; the rest
      of the model uses these. */
  const DEFAULT_OPTIONS: SubscribeOptions := SubscribeOptions(true, false, 0, "", false, Bit(Online), Some(Items), Some(TopLevelOnly))

  /** fieldDescriptors(): every field optional. */
  function Descriptors(): seq<DataFormBased.Descriptor<SubscribeOptions>> {
    [ DataFormBased.Descriptor(BooleanField, "pubsub#deliver", false,
        (o: SubscribeOptions, f: Field) => o.(notificationsEnabled := ToFlag(f.value)),
        (o: SubscribeOptions) => Flag(o.notificationsEnabled)),
      DataFormBased.Descriptor(BooleanField, "pubsub#digest", false,
        (o: SubscribeOptions, f: Field) => o.(digestsEnabled := ToFlag(f.value)),
        (o: SubscribeOptions) => Flag(o.digestsEnabled)),
      DataFormBased.Descriptor(TextSingleField, "pubsub#digest_frequency", false,
        (o: SubscribeOptions, f: Field) => o.(digestFrequencyMs := ToCount(f.value)),
        (o: SubscribeOptions) => Text(Decimal.NatToString(o.digestFrequencyMs))),
      DataFormBased.Descriptor(TextSingleField, "pubsub#expire", false,
        (o: SubscribeOptions, f: Field) => o.(expire := ToText(f.value).GetOr("")),
        (o: SubscribeOptions) => if o.expire == "" then Null else Text(o.expire)),
      DataFormBased.Descriptor(TextSingleField, "pubsub#include_body", false,
        (o: SubscribeOptions, f: Field) => o.(bodyIncluded := ToFlag(f.value)),
        (o: SubscribeOptions) => Flag(o.bodyIncluded)),
      DataFormBased.Descriptor(ListMultiField, "pubsub#show-values", false,
        (o: SubscribeOptions, f: Field) => o.(notificationRules := StatesFromNames(ToTextList(f.value))),
        (o: SubscribeOptions) => TextList(NamesOf(o.notificationRules))),
      DataFormBased.Descriptor(ListSingleField, "pubsub#subscription_type", false,
        (o: SubscribeOptions, f: Field) => o.(subscriptionType := ParseSubscriptionType(o.subscriptionType, ToText(f.value).GetOr(""))),
        (o: SubscribeOptions) => SubscriptionTypeValue(o.subscriptionType)),
      DataFormBased.Descriptor(ListSingleField, "pubsub#subscription_depth", false,
        (o: SubscribeOptions, f: Field) => o.(subscriptionDepth := ParseSubscriptionDepth(o.subscriptionDepth, ToText(f.value).GetOr(""))),
        (o: SubscribeOptions) => SubscriptionDepthValue(o.subscriptionDepth)) ]
  }

  /** The options' data-form binding: no form type of their own, and the base
      class's parseForm and serializeForm. */
  function OptionsBinding(): DataFormBased.Binding<SubscribeOptions> {
    DataFormBased.Binding("", Descriptors(),
      (o: SubscribeOptions, form: Form) => o,
      (o: SubscribeOptions, form: Form) => form.(formType := Form))
  }

  /** The pubsub#include_body field a default-constructed object writes
      depends on the uninitialised member. */
  lemma DefaultBodyIndeterminate(indeterminate: bool)
    ensures Descriptors()[4].key == "pubsub#include_body"
    ensures Descriptors()[4].serialize(DefaultsAsWritten(indeterminate)) == Flag(indeterminate)
  {
  }

  /** With the member initialised, a default object writes
      pubsub#include_body as false, and reading an empty form into the
      defaults leaves them as they are. */
  lemma DefaultsWritten(t: FormType)
    ensures Descriptors()[4].serialize(DEFAULT_OPTIONS) == Flag(false)
    ensures DataFormBased.FromDataFormSpec(DataForm(t, []), OptionsBinding(), DEFAULT_OPTIONS) == DataFormBased.Parsed(true, DEFAULT_OPTIONS)
  {
    DataFormBased.NothingToRead([], Descriptors(), 0, DEFAULT_OPTIONS);
  }
  /** The descriptor keys are distinct and none is FORM_TYPE. */
  lemma KeysDistinct()
    ensures DataFormBased.DistinctKeys(Descriptors())
  {
  }

  /** The options fromDataForm reads back from what toDataForm wrote, into
      `blank`: everything, except that an expiry, type or depth that was not
      written keeps the value `blank` had. */
  function ReadBackOptions(o: SubscribeOptions, blank: SubscribeOptions): SubscribeOptions {
    o.(expire := if o.expire == "" then blank.expire else o.expire,
       subscriptionType := if o.subscriptionType.None? then blank.subscriptionType else o.subscriptionType,
       subscriptionDepth := if o.subscriptionDepth.None? then blank.subscriptionDepth else o.subscriptionDepth)
  }

  /** Options written to a data form and read back: fromDataForm succeeds and
      yields the options (a frequency within 32 bits, notification rules
      within the five flags). */
  lemma FormRoundTrip(o: SubscribeOptions, blank: SubscribeOptions)
    requires o.digestFrequencyMs < Decimal.UINT32_LIMIT && o.notificationRules & !KNOWN_STATES == 0
    ensures DataFormBased.FromDataFormSpec(DataFormBased.ToDataFormSpec(OptionsBinding(), o), OptionsBinding(), blank)
      == DataFormBased.Parsed(true, ReadBackOptions(o, blank))
  {
    KeysDistinct();
    DataFormBased.ToDataFormReadBack(OptionsBinding(), o, blank);
    ReadBackAll(o, blank);
  }

  /** The descriptors, each parsing the field it wrote, restore the options. */
  lemma ReadBackAll(o: SubscribeOptions, blank: SubscribeOptions)
    requires o.digestFrequencyMs < Decimal.UINT32_LIMIT && o.notificationRules & !KNOWN_STATES == 0
    ensures DataFormBased.ReadBack(Descriptors(), 0, o, blank) == ReadBackOptions(o, blank)
  {
    var ds := Descriptors();
    var a2 := blank.(notificationsEnabled := o.notificationsEnabled, digestsEnabled := o.digestsEnabled);
    ReadBackFlags(o, blank);
    var a4 := a2.(digestFrequencyMs := o.digestFrequencyMs, expire := if o.expire == "" then blank.expire else o.expire);
    ReadBackText(o, a2);
    var a6 := a4.(bodyIncluded := o.bodyIncluded, notificationRules := o.notificationRules);
    ReadBackBodyAndRules(o, a4);
    ReadBackTypeAndDepth(o, a6);
  }

  lemma ReadBackFlags(o: SubscribeOptions, blank: SubscribeOptions)
    ensures DataFormBased.ReadBack(Descriptors(), 0, o, blank) ==
      DataFormBased.ReadBack(Descriptors(), 2, o, blank.(notificationsEnabled := o.notificationsEnabled, digestsEnabled := o.digestsEnabled))
  {
  }

  lemma ReadBackText(o: SubscribeOptions, acc: SubscribeOptions)
    requires o.digestFrequencyMs < Decimal.UINT32_LIMIT
    ensures DataFormBased.ReadBack(Descriptors(), 2, o, acc) ==
      DataFormBased.ReadBack(Descriptors(), 4, o, acc.(digestFrequencyMs := o.digestFrequencyMs, expire := if o.expire == "" then acc.expire else o.expire))
  {
    ToCountOfNumber(o.digestFrequencyMs);
    Decimal.SmallModulo(o.digestFrequencyMs);
  }

  lemma ReadBackBodyAndRules(o: SubscribeOptions, acc: SubscribeOptions)
    requires o.notificationRules & !KNOWN_STATES == 0
    ensures DataFormBased.ReadBack(Descriptors(), 4, o, acc) ==
      DataFormBased.ReadBack(Descriptors(), 6, o, acc.(bodyIncluded := o.bodyIncluded, notificationRules := o.notificationRules))
  {
    PresenceStatesRoundTrip(o.notificationRules);
  }

  lemma ReadBackTypeAndDepth(o: SubscribeOptions, acc: SubscribeOptions)
    ensures DataFormBased.ReadBack(Descriptors(), 6, o, acc) ==
      acc.(subscriptionType := if o.subscriptionType.None? then acc.subscriptionType else o.subscriptionType,
           subscriptionDepth := if o.subscriptionDepth.None? then acc.subscriptionDepth else o.subscriptionDepth)
  {
    var t := if o.subscriptionType.None? then acc.subscriptionType else o.subscriptionType;
    ReadBackType(o, acc);
    ReadBackDepth(o, acc.(subscriptionType := t));
  }

  lemma ReadBackType(o: SubscribeOptions, acc: SubscribeOptions)
    ensures DataFormBased.ReadBack(Descriptors(), 6, o, acc) ==
      DataFormBased.ReadBack(Descriptors(), 7, o, acc.(subscriptionType := if o.subscriptionType.None? then acc.subscriptionType else o.subscriptionType))
  {
    var d := Descriptors()[6];
    if o.subscriptionType.Some? {
      assert d.parse(acc, DataFormBased.FieldOf(o)(d)).subscriptionType == o.subscriptionType;
    }
  }

  lemma ReadBackDepth(o: SubscribeOptions, acc: SubscribeOptions)
    ensures DataFormBased.ReadBack(Descriptors(), 7, o, acc) ==
      acc.(subscriptionDepth := if o.subscriptionDepth.None? then acc.subscriptionDepth else o.subscriptionDepth)
  {
    var d := Descriptors()[7];
    if o.subscriptionDepth.Some? {
      assert d.parse(acc, DataFormBased.FieldOf(o)(d)).subscriptionDepth == o.subscriptionDepth;
    }
  }
}
