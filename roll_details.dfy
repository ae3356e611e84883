/** `RollInspector.getData`: the view model the inspector renders from the `pf2e`
    flags of a chat message. The host's localisation, `signedInteger` and the two
    damage-dice label helpers are parameters whose results are left unspecified. */
module RollDetails {
  import opened JsStrings
  import opened Sorting
  import opened RollOptions

  /** A value that may be `undefined` or `null`. */
  datatype Option<+T> = None | Some(value: T)
  {
    /** `this ?? default` */
    function GetOr(default: T): T
    {
      match this
      case Some(v) => v
      case None => default
    }
  }

  /** The `critical` field of a raw modifier or damage die: a boolean, or anything
      else (`undefined`, `null`, another value). */
  datatype CriticalFlag = NotBoolean | Boolean(value: bool)

  /** A modifier as stored on the message: the two fields the inspector reads. The
      others (slug, label, type and so on) are only copied by the spread and are
      left out. */
  datatype RawModifier = RawModifier(modifier: int, critical: CriticalFlag)

  /** A damage die as stored on the message: its `critical` flag, and the rest of the
      record (slug, dice count, die size, modifier, override and so on), which only
      the two label helpers read and which the model keeps abstract as `D`. */
  datatype RawDamageDice<D> = RawDamageDice(critical: CriticalFlag, details: D)

  /** `flags.pf2e.context`. */
  datatype ChatContext = ChatContext(
    options: Option<seq<JsString>>,
    domains: Option<seq<JsString>>,
    /** The entries of `contextualOptions` in enumeration order, when the property is set. */
    contextualOptions: Option<seq<(JsString, Option<seq<JsString>>)>>)

  /** `flags.pf2e` of the inspected message. */
  datatype RollFlags<D> = RollFlags(
    context: Option<ChatContext>,
    dice: Option<seq<RawDamageDice<D>>>,
    modifiers: Option<seq<RawModifier>>)

  /** The host functions getData calls and does not define. */
  datatype Host<!D> = Host(
    localize: JsString -> JsString,
    signedInteger: int -> JsString,
    /** `getDamageDiceValueLabel(dice, { sign: true })` */
    diceValueLabel: RawDamageDice<D> -> Option<JsString>,
    /** `getDamageDiceOverrideLabel(dice)` */
    diceOverrideLabel: RawDamageDice<D> -> Option<JsString>)

  /** A raw record with its `value` and `critical` display fields overwritten. */
  datatype Prepared<R> = Prepared(raw: R, value: JsString, critical: Option<JsString>)

  datatype ContextualGroup = ContextualGroup(header: JsString, options: seq<JsString>)

  datatype ChatRollDetailsData<D> = ChatRollDetailsData(
    context: Option<ChatContext>,
    dice: seq<Prepared<RawDamageDice<D>>>,
    domains: seq<JsString>,
    modifiers: seq<Prepared<RawModifier>>,
    rollOptions: seq<JsString>,
    contextualOptions: seq<ContextualGroup>)

  /** The `dice` getter: `flags.pf2e.dice ?? []`. */
  function Dice<D>(flags: RollFlags<D>): seq<RawDamageDice<D>>
  {
    flags.dice.GetOr([])
  }

  /** The `modifiers` getter: `flags.pf2e.modifiers ?? []`. */
  function Modifiers<D>(flags: RollFlags<D>): seq<RawModifier>
  {
    flags.modifiers.GetOr([])
  }

  // ---------------------------------------------------------------- critical label

  /** The localisation key `PF2E.RuleEditor.General.CriticalBehavior.${critical}`. */
  function CriticalKey(critical: bool): JsString
  {
    Ascii("PF2E.RuleEditor.General.CriticalBehavior.") + (if critical then Ascii("true") else Ascii("false"))
  }

  /** `typeof critical === "boolean" ? game.i18n.localize(key) : null` */
  function CriticalLabel(critical: CriticalFlag, localize: JsString -> JsString): (r: Option<JsString>)
    ensures r.None? <==> !critical.Boolean?
  {
    match critical
    case Boolean(b) => Some(localize(CriticalKey(b)))
    case NotBoolean => None
  }

  /** The label is `null` exactly when `critical` is not a boolean, and otherwise
      the localisation of the key of that boolean. */
  lemma {:induction false} CriticalLabelSpec(critical: CriticalFlag, localize: JsString -> JsString)
    ensures CriticalLabel(critical, localize).None? <==> !critical.Boolean?
    ensures critical == Boolean(true) ==> CriticalLabel(critical, localize) == Some(localize(CriticalKey(true)))
    ensures critical == Boolean(false) ==> CriticalLabel(critical, localize) == Some(localize(CriticalKey(false)))
  {
  }

  /** The lookup is keyed by the boolean: the two keys differ, right after the shared prefix. */
  lemma {:induction false} CriticalKeysDiffer()
    ensures CriticalKey(true) != CriticalKey(false)
  {
  }

  // ---------------------------------------------------------------- dice value

  /** A label JavaScript treats as truthy: present and not the empty string. */
  predicate IsTruthy(text: Option<JsString>)
  {
    text.Some? && text.value != []
  }

  /** `labels.filter(R.isTruthy)` */
  function TruthyLabels(labels: seq<Option<JsString>>): seq<JsString>
  {
    if labels == [] then []
    else (if IsTruthy(labels[0]) then [labels[0].value] else []) + TruthyLabels(labels[1..])
  }

  /** `[value, override].filter(R.isTruthy).join(" ")`: both labels with one space
      between them, whichever one alone is non-empty, or the empty string. */
  function ComposeValue(value: Option<JsString>, override: Option<JsString>): (r: JsString)
    ensures IsTruthy(value) && IsTruthy(override) ==> r == value.value + [Space] + override.value
    ensures IsTruthy(value) && !IsTruthy(override) ==> r == value.value
    ensures !IsTruthy(value) && IsTruthy(override) ==> r == override.value
    ensures !IsTruthy(value) && !IsTruthy(override) ==> r == []
  {
    TruthyPair(value, override);
    Join(TruthyLabels([value, override]), [Space])
  }

  /** Filtering a pair of labels and joining the survivors with a space. */
  lemma {:induction false} TruthyPair(value: Option<JsString>, override: Option<JsString>)
    ensures IsTruthy(value) && IsTruthy(override) ==> Join(TruthyLabels([value, override]), [Space]) == value.value + [Space] + override.value
    ensures IsTruthy(value) && !IsTruthy(override) ==> Join(TruthyLabels([value, override]), [Space]) == value.value
    ensures !IsTruthy(value) && IsTruthy(override) ==> Join(TruthyLabels([value, override]), [Space]) == override.value
    ensures !IsTruthy(value) && !IsTruthy(override) ==> Join(TruthyLabels([value, override]), [Space]) == []
  {
    var last := if IsTruthy(override) then [override.value] else [];
    assert [override][1..] == [];
    assert TruthyLabels([override]) == last + TruthyLabels([]);
    assert [value, override][1..] == [override];
    assert TruthyLabels([value, override]) == (if IsTruthy(value) then [value.value] else []) + last;
    if IsTruthy(value) && IsTruthy(override) {
      assert TruthyLabels([value, override]) == [value.value, override.value];
      assert [value.value, override.value][1..] == [override.value];
      assert Join([value.value, override.value], [Space]) == value.value + [Space] + Join([override.value], [Space]);
    }
  }

  /** The composed value is empty exactly when neither label is truthy. */
  lemma {:induction false} ComposeValueEmpty(value: Option<JsString>, override: Option<JsString>)
    ensures ComposeValue(value, override) == [] <==> !IsTruthy(value) && !IsTruthy(override)
  {
  }

  function PrepareDice<D>(dice: RawDamageDice<D>, host: Host<D>): Prepared<RawDamageDice<D>>
  {
    Prepared(dice, ComposeValue(host.diceValueLabel(dice), host.diceOverrideLabel(dice)),
             CriticalLabel(dice.critical, host.localize))
  }

  function PrepareModifier<D>(mod: RawModifier, host: Host<D>): Prepared<RawModifier>
  {
    Prepared(mod, host.signedInteger(mod.modifier), CriticalLabel(mod.critical, host.localize))
  }

  // ---------------------------------------------------------------- contextual options

  /** `PF2E.ChatRollDetails.ContextualOptions.${key}`, localised. */
  function ContextualHeader(key: JsString, localize: JsString -> JsString): JsString
  {
    localize(Ascii("PF2E.ChatRollDetails.ContextualOptions.") + key)
  }

  /** One entry `[key, value]` as a group: `{ header, options: value ?? [] }`. */
  function GroupOf(entry: (JsString, Option<seq<JsString>>), localize: JsString -> JsString): ContextualGroup
  {
    ContextualGroup(ContextualHeader(entry.0, localize), entry.1.GetOr([]))
  }

  /** `.filter((o) => !!o.options.length)` */
  function NonEmptyGroups(groups: seq<ContextualGroup>): (r: seq<ContextualGroup>)
    ensures |r| <= |groups|
    ensures forall k :: 0 <= k < |r| ==> |r[k].options| > 0
  {
    if groups == [] then []
    else (if |groups[0].options| > 0 then [groups[0]] else []) + NonEmptyGroups(groups[1..])
  }

  /** `Object.entries(contextualOptions).map(([key, value]) => ...)` */
  function Groups(entries: seq<(JsString, Option<seq<JsString>>)>, localize: JsString -> JsString): (groups: seq<ContextualGroup>)
    ensures |groups| == |entries|
  {
    seq(|entries|, i requires 0 <= i < |entries| => GroupOf(entries[i], localize))
  }

  /** The shown groups: at most one per entry, none with an empty option list. */
  function ContextualGroups(entries: seq<(JsString, Option<seq<JsString>>)>, localize: JsString -> JsString): (r: seq<ContextualGroup>)
    ensures |r| <= |entries|
    ensures forall k :: 0 <= k < |r| ==> |r[k].options| > 0
  {
    NonEmptyGroups(Groups(entries, localize))
  }

  /** The entry has at least one option once a missing list is read as `[]`. */
  predicate HasOptions(entry: (JsString, Option<seq<JsString>>))
  {
    |entry.1.GetOr([])| > 0
  }

  /** The positions of the groups with at least one option, in ascending order. */
  function KeptPositions(groups: seq<ContextualGroup>): (idx: seq<nat>)
    ensures forall k :: 0 <= k < |idx| ==> idx[k] < |groups|
  {
    if groups == [] then []
    else if |groups[0].options| > 0 then [0] + Shift(KeptPositions(groups[1..]))
    else Shift(KeptPositions(groups[1..]))
  }

  /** The kept positions are ascending. */
  lemma {:induction false} KeptPositionsAscending(groups: seq<ContextualGroup>)
    ensures forall k, l :: 0 <= k < l < |KeptPositions(groups)| ==> KeptPositions(groups)[k] < KeptPositions(groups)[l]
    decreases |groups|
  {
    if groups != [] {
      KeptPositionsAscending(groups[1..]);
    }
  }

  /** A position is kept exactly when its group has options. */
  lemma {:induction false} KeptPositionsExact(groups: seq<ContextualGroup>)
    ensures forall i :: 0 <= i < |groups| ==> (|groups[i].options| > 0 <==> i in KeptPositions(groups))
    decreases |groups|
  {
    if groups != [] {
      var rest := KeptPositions(groups[1..]);
      KeptPositionsExact(groups[1..]);
      var shifted := Shift(rest);
      assert 0 !in shifted;
      forall i | 1 <= i < |groups|
        ensures |groups[i].options| > 0 <==> i in shifted
      {
        assert groups[i] == groups[1..][i - 1];
        if i - 1 in rest {
          var k :| 0 <= k < |rest| && rest[k] == i - 1;
          assert shifted[k] == i;
        }
      }
    }
  }

  function Shift(idx: seq<nat>): (r: seq<nat>)
    ensures |r| == |idx| && forall k :: 0 <= k < |idx| ==> r[k] == idx[k] + 1
  {
    seq(|idx|, k requires 0 <= k < |idx| => idx[k] + 1)
  }

  /** The filter keeps order: its `k`-th group is the group at the `k`-th kept position. */
  lemma {:induction false} NonEmptyGroupsAt(groups: seq<ContextualGroup>)
    ensures |NonEmptyGroups(groups)| == |KeptPositions(groups)|
    ensures forall k :: 0 <= k < |KeptPositions(groups)| ==> NonEmptyGroups(groups)[k] == groups[KeptPositions(groups)[k]]
    decreases |groups|
  {
    if groups != [] {
      NonEmptyGroupsAt(groups[1..]);
      var rest := KeptPositions(groups[1..]);
      var tail := NonEmptyGroups(groups[1..]);
      var r, idx := NonEmptyGroups(groups), KeptPositions(groups);
      if |groups[0].options| > 0 {
        assert r == [groups[0]] + tail && idx == [0] + Shift(rest);
        forall k | 0 < k < |idx|
          ensures r[k] == groups[idx[k]]
        {
          assert r[k] == tail[k - 1] && idx[k] == rest[k - 1] + 1;
        }
      } else {
        assert r == tail && idx == Shift(rest);
      }
    }
  }

  /** Groups keep their entries' order and option lists, and exactly the entries
      whose option list is missing or empty are dropped: group `k` is built from
      the entry at the `k`-th kept position, and a position is kept iff its entry
      has options. */
  lemma {:induction false} ContextualGroupsSpec(entries: seq<(JsString, Option<seq<JsString>>)>, localize: JsString -> JsString)
    ensures var idx := KeptPositions(Groups(entries, localize));
      && |ContextualGroups(entries, localize)| == |idx|
      && (forall k :: 0 <= k < |idx| ==> ContextualGroups(entries, localize)[k] == GroupOf(entries[idx[k]], localize))
      && (forall k, l :: 0 <= k < l < |idx| ==> idx[k] < idx[l])
      && (forall i :: 0 <= i < |entries| ==> (HasOptions(entries[i]) <==> i in idx))
  {
    NonEmptyGroupsAt(Groups(entries, localize));
    KeptPositionsAscending(Groups(entries, localize));
    KeptPositionsExact(Groups(entries, localize));
  }

  // ---------------------------------------------------------------- getData

  /** `context?.options?.sort() ?? []` put in roll-option order. */
  function RollOptionsOf(context: Option<ChatContext>): seq<JsString>
  {
    if context.Some? && context.value.options.Some? then OrderRollOptions(context.value.options.value) else []
  }

  /** `context?.domains?.sort() ?? []`: the domains in ascending order, or none. */
  function DomainsOf(context: Option<ChatContext>): (r: seq<JsString>)
    ensures context.None? || context.value.domains.None? ==> r == []
    ensures context.Some? && context.value.domains.Some? ==> multiset(r) == multiset(context.value.domains.value)
    ensures IsSorted(r)
  {
    if context.Some? && context.value.domains.Some? then SortStrings(context.value.domains.value) else []
  }

  /** `records.map(prepare)` */
  function PrepareAll<R, P>(records: seq<R>, prepare: R -> P): (r: seq<P>)
    ensures |r| == |records| && forall i :: 0 <= i < |records| ==> r[i] == prepare(records[i])
  {
    seq(|records|, i requires 0 <= i < |records| => prepare(records[i]))
  }

  /** `contextualOptions` when the context has it, otherwise `{}`, as entries. */
  function ContextualEntries(context: Option<ChatContext>): seq<(JsString, Option<seq<JsString>>)>
  {
    if context.Some? then context.value.contextualOptions.GetOr([]) else []
  }

  /** The view model: the context as stored, one prepared entry per die and per
      modifier in their stored order, and the three derived lists. */
  function GetData<D>(flags: RollFlags<D>, host: Host<D>): (r: ChatRollDetailsData<D>)
    ensures r.context == flags.context
    ensures |r.dice| == |Dice(flags)| && forall i :: 0 <= i < |r.dice| ==> r.dice[i].raw == Dice(flags)[i]
    ensures |r.modifiers| == |Modifiers(flags)| && forall i :: 0 <= i < |r.modifiers| ==> r.modifiers[i].raw == Modifiers(flags)[i]
    ensures |r.rollOptions| == |flags.context.GetOr(ChatContext(None, None, None)).options.GetOr([])|
  {
    var context := flags.context;
    var dice := Dice(flags);
    var modifiers := Modifiers(flags);
    ChatRollDetailsData(
      context,
      PrepareAll(dice, d => PrepareDice(d, host)),
      DomainsOf(context),
      PrepareAll(modifiers, m => PrepareModifier(m, host)),
      RollOptionsOf(context),
      ContextualGroups(ContextualEntries(context), host.localize))
  }

  /** Roll options: empty without a context or options list, otherwise the options
      reordered, plain group first, both groups sorted. */
  lemma {:induction false} GetDataRollOptions<D>(flags: RollFlags<D>, host: Host<D>)
    ensures var r := GetData(flags, host).rollOptions;
      && (flags.context.None? || flags.context.value.options.None? ==> r == [])
      && (flags.context.Some? && flags.context.value.options.Some? ==>
            multiset(r) == multiset(flags.context.value.options.value) && PlainFirst(r) && GroupsSorted(r))
  {
    if flags.context.Some? && flags.context.value.options.Some? {
      OrderRollOptionsSpec(flags.context.value.options.value);
    }
  }

  /** Contextual options: no groups without a context or without its
      `contextualOptions` (the `{}` default), otherwise the groups of its entries. */
  lemma {:induction false} GetDataContextualOptions<D>(flags: RollFlags<D>, host: Host<D>)
    ensures flags.context.None? || flags.context.value.contextualOptions.None? ==>
              GetData(flags, host).contextualOptions == []
    ensures flags.context.Some? && flags.context.value.contextualOptions.Some? ==>
              GetData(flags, host).contextualOptions == ContextualGroups(flags.context.value.contextualOptions.value, host.localize)
  {
  }

  /** Domains: empty without a context or domains list, otherwise the domains in
      plain ascending order with no grouping. */
  lemma {:induction false} GetDataDomains<D>(flags: RollFlags<D>, host: Host<D>)
    ensures var d := GetData(flags, host).domains;
      && (flags.context.None? || flags.context.value.domains.None? ==> d == [])
      && (flags.context.Some? && flags.context.value.domains.Some? ==>
            multiset(d) == multiset(flags.context.value.domains.value) && IsSorted(d))
  {
  }

  /** Dice keep their number, order and raw records; a die's value is its two
      helper labels composed and its critical label is built from its own `critical`. */
  lemma {:induction false} GetDataDice<D>(flags: RollFlags<D>, host: Host<D>)
    ensures |GetData(flags, host).dice| == |Dice(flags)|
    ensures forall i :: 0 <= i < |Dice(flags)| ==>
              var d, p := Dice(flags)[i], GetData(flags, host).dice[i];
              && p.raw == d
              && p.value == ComposeValue(host.diceValueLabel(d), host.diceOverrideLabel(d))
              && p.critical == CriticalLabel(d.critical, host.localize)
  {
  }

  /** Modifiers keep their number, order and raw records; a modifier's value is
      `signedInteger` of its modifier and its critical label is built from its own
      `critical`. */
  lemma {:induction false} GetDataModifiers<D>(flags: RollFlags<D>, host: Host<D>)
    ensures |GetData(flags, host).modifiers| == |Modifiers(flags)|
    ensures forall i :: 0 <= i < |Modifiers(flags)| ==>
              var m, p := Modifiers(flags)[i], GetData(flags, host).modifiers[i];
              && p.raw == m
              && p.value == host.signedInteger(m.modifier)
              && p.critical == CriticalLabel(m.critical, host.localize)
  {
  }
}
