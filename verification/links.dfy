/** An input slot of a node: which node feeds it, the type it declares, and its
    settings flags. */
module Links {
  import opened ValueTypes

  /** The id that means "no node". */
  const NoNodeId: int := -1

  /** The `Link.Settings` flags word. */
  type Settings = bv32

  const SettingsNone: Settings := 0
  /** The input must be fed for the node to be evaluated. */
  const ValueRequiredFlag: Settings := 1
  /** The input is never fed by an automatic default node. */
  const NoDefaultsFlag: Settings := 2

  /** A link. `nodeId` is the feeding node (`NoNodeId` when nothing feeds it, below
      `NoNodeId` when a default node feeds it); `lastDefault` remembers the default node
      it was last given. The display name is not modelled. */
  datatype Link = Link(nodeId: int, ty: ValueType, settings: Settings, lastDefault: int)

  /** `new Link()`: unconnected, declared type `None`, no flags. */
  const FreshLink: Link := Link(NoNodeId, NoType, SettingsNone, NoNodeId)

  predicate ValueRequired(l: Link) {
    l.settings & ValueRequiredFlag != 0
  }

  predicate NoDefaults(l: Link) {
    l.settings & NoDefaultsFlag != 0
  }

  /** A link counts as connected when it names a regular node, whose ids are non-negative. */
  predicate IsConnected(l: Link) {
    l.nodeId > NoNodeId
  }

  /** The `ValueRequired` setter: sets or clears that one flag and no other bit. */
  function SetValueRequired(l: Link, value: bool): (r: Link)
    ensures ValueRequired(r) == value
    ensures NoDefaults(r) == NoDefaults(l)
    ensures r.settings & !ValueRequiredFlag == l.settings & !ValueRequiredFlag
    ensures r.(settings := l.settings) == l
  {
    if value then l.(settings := l.settings | ValueRequiredFlag)
    else l.(settings := l.settings & !ValueRequiredFlag)
  }

  /** The `NoDefaults` setter: sets or clears that one flag and no other bit. */
  function SetNoDefaults(l: Link, value: bool): (r: Link)
    ensures NoDefaults(r) == value
    ensures ValueRequired(r) == ValueRequired(l)
    ensures r.settings & !NoDefaultsFlag == l.settings & !NoDefaultsFlag
    ensures r.(settings := l.settings) == l
  {
    if value then l.(settings := l.settings | NoDefaultsFlag)
    else l.(settings := l.settings & !NoDefaultsFlag)
  }

  /** The two setters touch different bits, so their order does not matter. */
  lemma {:induction false} SettersCommute(l: Link, a: bool, b: bool)
    ensures SetValueRequired(SetNoDefaults(l, a), b) == SetNoDefaults(SetValueRequired(l, b), a)
  {
  }

  /** `Link.Initialize`: new declared type and settings; the connection is kept. */
  function Initialize(l: Link, ty: ValueType, settings: Settings): (r: Link)
    ensures r.nodeId == l.nodeId && r.lastDefault == l.lastDefault
  {
    l.(ty := ty, settings := settings)
  }

  /** The settings `Initialize` uses when the caller gives none. */
  const DefaultSettings: Settings := ValueRequiredFlag

  /** Initialised without explicit settings, a link requires a value and accepts
      default nodes. */
  lemma {:induction false} InitializeDefaults(l: Link, ty: ValueType)
    ensures ValueRequired(Initialize(l, ty, DefaultSettings))
    ensures !NoDefaults(Initialize(l, ty, DefaultSettings))
  {
  }

  /** A new link is unconnected, remembers no default node and has no flag set. */
  lemma {:induction false} FreshLinkState()
    ensures !IsConnected(FreshLink) && FreshLink.lastDefault == NoNodeId
    ensures !ValueRequired(FreshLink) && !NoDefaults(FreshLink)
  {
  }
}
