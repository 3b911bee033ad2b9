/** The node configuration form of XEP-0060 (pubsub#node_config): the text
    codecs of its enumerated options, and the form-type check that guards
    reading a configuration from a data form. */
module PubSubNodeConfig {
  import opened Wrappers
  import opened DataForm
  import DataFormBased

  const NODE_CONFIG_FORM_TYPE: string := "http://jabber.org/protocol/pubsub#node_config"

  datatype AccessModel = Open | Presence | Roster | Authorize | Whitelist

  function AccessModelFromString(s: string): Option<AccessModel> {
    if s == "open" then Some(Open)
    else if s == "presence" then Some(Presence)
    else if s == "roster" then Some(Roster)
    else if s == "authorize" then Some(Authorize)
    else if s == "whitelist" then Some(Whitelist)
    else None
  }

  function AccessModelToString(m: AccessModel): string {
    match m
    case Open => "open"
    case Presence => "presence"
    case Roster => "roster"
    case Authorize => "authorize"
    case Whitelist => "whitelist"
  }

  /** A name reads as exactly the access model it is the name of, and as no
      model when it names none. */
  lemma AccessModelCodec(m: AccessModel, s: string)
    ensures AccessModelFromString(s) == Some(m) <==> s == AccessModelToString(m)
    ensures AccessModelFromString(s).None? <==> forall n :: AccessModelToString(n) != s
  {
    forall u: AccessModel
      ensures AccessModelFromString(AccessModelToString(u)) == Some(u)
    {
    }
  }

  /** `Anyone` is written "open". */
  datatype PublishModel = Publishers | Subscribers | Anyone

  function PublishModelFromString(s: string): Option<PublishModel> {
    if s == "publishers" then Some(Publishers)
    else if s == "subscribers" then Some(Subscribers)
    else if s == "open" then Some(Anyone)
    else None
  }

  function PublishModelToString(m: PublishModel): string {
    match m
    case Publishers => "publishers"
    case Subscribers => "subscribers"
    case Anyone => "open"
  }

  lemma PublishModelCodec(m: PublishModel, s: string)
    ensures PublishModelFromString(s) == Some(m) <==> s == PublishModelToString(m)
    ensures PublishModelFromString(s).None? <==> forall n :: PublishModelToString(n) != s
  {
    forall u: PublishModel
      ensures PublishModelFromString(PublishModelToString(u)) == Some(u)
    {
    }
  }

  datatype ChildAssociationPolicy = All | Owners | Whitelisted

  /** childAssociatationPolicyFromString (sic). */
  function ChildAssociationPolicyFromString(s: string): Option<ChildAssociationPolicy> {
    if s == "all" then Some(All)
    else if s == "owners" then Some(Owners)
    else if s == "whitelist" then Some(Whitelisted)
    else None
  }

  function ChildAssociationPolicyToString(p: ChildAssociationPolicy): string {
    match p
    case All => "all"
    case Owners => "owners"
    case Whitelisted => "whitelist"
  }

  lemma ChildAssociationPolicyCodec(p: ChildAssociationPolicy, s: string)
    ensures ChildAssociationPolicyFromString(s) == Some(p) <==> s == ChildAssociationPolicyToString(p)
    ensures ChildAssociationPolicyFromString(s).None? <==> forall q :: ChildAssociationPolicyToString(q) != s
  {
    forall u: ChildAssociationPolicy
      ensures ChildAssociationPolicyFromString(ChildAssociationPolicyToString(u)) == Some(u)
    {
    }
  }

  datatype ItemPublisher = NodeOwner | Publisher

  function ItemPublisherFromString(s: string): Option<ItemPublisher> {
    if s == "owner" then Some(NodeOwner)
    else if s == "publisher" then Some(Publisher)
    else None
  }

  function ItemPublisherToString(p: ItemPublisher): string {
    match p
    case NodeOwner => "owner"
    case Publisher => "publisher"
  }

  lemma ItemPublisherCodec(p: ItemPublisher, s: string)
    ensures ItemPublisherFromString(s) == Some(p) <==> s == ItemPublisherToString(p)
    ensures ItemPublisherFromString(s).None? <==> forall q :: ItemPublisherToString(q) != s
  {
    forall u: ItemPublisher
      ensures ItemPublisherFromString(ItemPublisherToString(u)) == Some(u)
    {
    }
  }

  datatype NodeType = Leaf | Collection

  function NodeTypeFromString(s: string): Option<NodeType> {
    if s == "leaf" then Some(Leaf)
    else if s == "collection" then Some(Collection)
    else None
  }

  function NodeTypeToString(t: NodeType): string {
    match t
    case Leaf => "leaf"
    case Collection => "collection"
  }

  lemma NodeTypeCodec(t: NodeType, s: string)
    ensures NodeTypeFromString(s) == Some(t) <==> s == NodeTypeToString(t)
    ensures NodeTypeFromString(s).None? <==> forall u :: NodeTypeToString(u) != s
  {
    forall u: NodeType
      ensures NodeTypeFromString(NodeTypeToString(u)) == Some(u)
    {
    }
  }

  datatype NotificationType = Normal | Headline

  function NotificationTypeFromString(s: string): Option<NotificationType> {
    if s == "normal" then Some(Normal)
    else if s == "headline" then Some(Headline)
    else None
  }

  function NotificationTypeToString(t: NotificationType): string {
    match t
    case Normal => "normal"
    case Headline => "headline"
  }

  lemma NotificationTypeCodec(t: NotificationType, s: string)
    ensures NotificationTypeFromString(s) == Some(t) <==> s == NotificationTypeToString(t)
    ensures NotificationTypeFromString(s).None? <==> forall u :: NotificationTypeToString(u) != s
  {
    forall u: NotificationType
      ensures NotificationTypeFromString(NotificationTypeToString(u)) == Some(u)
    {
    }
  }

  datatype SendLastItemType = Never | OnSubscription | OnSubscriptionAndPresence

  function SendLastItemTypeFromString(s: string): Option<SendLastItemType> {
    if s == "never" then Some(Never)
    else if s == "on_sub" then Some(OnSubscription)
    else if s == "on_sub_and_presence" then Some(OnSubscriptionAndPresence)
    else None
  }

  function SendLastItemTypeToString(t: SendLastItemType): string {
    match t
    case Never => "never"
    case OnSubscription => "on_sub"
    case OnSubscriptionAndPresence => "on_sub_and_presence"
  }

  lemma SendLastItemTypeCodec(t: SendLastItemType, s: string)
    ensures SendLastItemTypeFromString(s) == Some(t) <==> s == SendLastItemTypeToString(t)
    ensures SendLastItemTypeFromString(s).None? <==> forall u :: SendLastItemTypeToString(u) != s
  {
    forall u: SendLastItemType
      ensures SendLastItemTypeFromString(SendLastItemTypeToString(u)) == Some(u)
    {
    }
  }

  /** fromDataForm: a form of another type gives no configuration; otherwise
      the fields are read into a blank configuration, which is returned when
      no required field is missing.  `binding` is the configuration's
      descriptor table and `blank` a default-constructed configuration. */
  function FromDataForm<S>(form: Form, binding: DataFormBased.Binding<S>, blank: S): (r: Option<S>)
    ensures FormTypeOf(form) != NODE_CONFIG_FORM_TYPE ==> r.None?
    ensures r.Some? ==> r.value == DataFormBased.FromDataFormSpec(form, binding, blank).output
  {
    if FormTypeOf(form) != NODE_CONFIG_FORM_TYPE then None
    else
      var parsed := DataFormBased.FromDataFormSpec(form, binding, blank);
      if parsed.ok then Some(parsed.output) else None
  }

  /** A form of the node configuration type is refused exactly when one of
      the required fields has no field it accepts. */
  lemma FromDataFormRefuses<S>(form: Form, binding: DataFormBased.Binding<S>, blank: S)
    requires FormTypeOf(form) == NODE_CONFIG_FORM_TYPE
    ensures FromDataForm(form, binding, blank).None? <==>
      exists j :: 0 <= j < |binding.descriptors| && binding.descriptors[j].required
        && DataFormBased.FindField(form.fields, binding.descriptors[j], 0).None?
  {
    DataFormBased.FromDataFormFails(form, binding, blank);
  }

  /** A configuration written by toDataForm (formType() is the node
      configuration type, serializeForm keeps the fields) is read back
      whenever every required field was written. */
  lemma ToDataFormReadBack<S>(binding: DataFormBased.Binding<S>, config: S, blank: S)
    requires binding.formType == NODE_CONFIG_FORM_TYPE
    requires DataFormBased.ToDataFormSpec(binding, config).fields == DataFormBased.CollectedFields(binding, config)
    requires forall d :: d in binding.descriptors && d.required ==> !d.serialize(config).Null?
    ensures FromDataForm(DataFormBased.ToDataFormSpec(binding, config), binding, blank).Some?
  {
    DataFormBased.ToDataFormNamesFormType(binding, config);
    DataFormBased.ToDataFormAccepted(binding, config, blank);
  }
}
