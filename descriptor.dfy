/**
 * What the controller hands to the filtering engine for one rule at one
 * layer (the `FWPM_FILTER0` built in `add_advanced_network_filter`,
 * src/astral_wfp.rs), reduced to the parts that depend on the rule.
 */
module Descriptor {
  import opened Wrappers
  import opened Rule
  import opened Layers

  /** `FWP_ACTION_FLAG_TERMINATING`: the action ends evaluation at its layer. */
  const ActionFlagTerminating: bv32 := 0x0000_1000

  /** `WFP_ACTION_BLOCK` of the source: block, terminating. */
  const ActionBlock: bv32 := 0x0000_0001 | 0x0000_1000

  /** `WFP_ACTION_PERMIT` of the source: permit, terminating. */
  const ActionPermit: bv32 := 0x0000_0002 | 0x0000_1000

  /**
   * The action type written into the filter. Both codes carry the
   * terminating flag, and below it they differ: 2 permits, 1 blocks.
   */
  function ActionType(action: FilterAction): (code: bv32)
    ensures code & ActionFlagTerminating == ActionFlagTerminating
    ensures code & !ActionFlagTerminating == if action == Allow then 2 else 1
  {
    match action
    case Allow => ActionPermit
    case Block => ActionBlock
  }

  /** The rule action an engine action type stands for, if any. */
  function ActionOf(code: bv32): Option<FilterAction>
  {
    if code == ActionPermit then Some(Allow)
    else if code == ActionBlock then Some(Block)
    else None
  }

  /** The action type is read back as the action it came from, so the two codes differ. */
  lemma ActionTypeRoundTrip(action: FilterAction)
    ensures ActionOf(ActionType(action)) == Some(action)
    ensures ActionType(Allow) != ActionType(Block)
  {
  }

  /**
   * A filter as submitted: display name, layer, action type and number of
   * match conditions.
   */
  datatype FilterDescriptor = FilterDescriptor(
    displayName: string,
    layer: Layer,
    actionType: bv32,
    conditionCount: nat)

  /**
   * The filter built for `rule` at `layer`: it carries the rule's name, the
   * layer and the action type, and no match condition at all, so it applies
   * to all traffic at that layer.
   */
  function DescriptorFor(rule: FilterRule, layer: Layer): (d: FilterDescriptor)
    ensures d.displayName == rule.name && d.layer == layer
    ensures ActionOf(d.actionType) == Some(rule.action)
    ensures d.conditionCount == 0
  {
    FilterDescriptor(rule.name, layer, ActionType(rule.action), 0)
  }

  /**
   * Application path, addresses, networks, ports and protocol never reach
   * the engine: two rules with the same name and action give the same filter
   * at a layer.
   */
  lemma DescriptorIgnoresMatchFields(a: FilterRule, b: FilterRule, layer: Layer)
    requires a.name == b.name && a.action == b.action
    ensures DescriptorFor(a, layer) == DescriptorFor(b, layer)
  {
  }
}
