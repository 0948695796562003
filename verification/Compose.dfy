/**
  Composition of parsed sources into one message set keyed by wire identity.
  Names, sources, labels, units and stable identities are compared like the
  strings they stand for, through an order-preserving integer; a wire identity
  (bus, format, id) and a span (source, line, column, end) are such integers too.
 */
module Compose {
  import opened BitCoordinates
  import opened SortedLists

  datatype Possible<+T> = Nothing | Just(value: T)

  datatype ValueLabel = ValueLabel(raw: int, text: int)

  datatype Mechanics = Mechanics(
    start: nat, length: nat, order: ByteOrder, signed: bool,
    scale: real, offset: real, minimum: real, maximum: real, physicalUnit: int)

  /** What a signal carries without being compared by it. */
  datatype SignalDetails = SignalDetails(
    receivers: seq<int>, multiplex: Possible<int>, valueType: int, labelSpans: seq<seq<int>>)

  datatype Signal = Signal(
    id: int, name: int, source: int, mechanics: Mechanics, table: seq<ValueLabel>, spans: seq<int>,
    details: SignalDetails)

  /** What a message carries without being compared by it. */
  datatype MessageDetails = MessageDetails(rawId: int, sender: int, cycleTime: Possible<int>, frameFormat: Possible<int>)

  datatype Message = Message(
    id: int, name: int, source: int, length: nat, executable: bool, unsupported: set<int>,
    signals: seq<Signal>, spans: seq<int>, details: MessageDetails)

  datatype Entry = Entry(key: int, message: Message)

  datatype Field = Field(representative: Signal, names: set<int>, sources: set<int>)

  datatype AliasKind = MessageAlias | FieldAlias

  datatype Alias = Alias(kind: AliasKind, representative: int, source: int, name: int, original: int, spans: seq<int>)

  datatype ComposedMessage = ComposedMessage(
    key: int, id: int, name: int, length: nat, executable: bool, unsupported: set<int>,
    fields: seq<Field>, spans: seq<int>, details: MessageDetails)

  datatype Reason =
    | PartialOverlap
    | ConflictingLabels(raw: int)
    | DifferentMechanics
    | SameName(name: int)
    | PayloadLengths

  /** A conflict names both definitions by their first spans. */
  datatype Outcome<+T> = Composed(value: T) | Conflict(reason: Reason, first: int, second: int)

  // ---------------------------------------------------------------- one pair of fields

  function BitsOf(signal: Signal): set<int> {
    set p | p in Positions(signal.mechanics.start, signal.mechanics.length, signal.mechanics.order)
  }

  /** Equal signatures mean one logical field. */
  predicate SameSignature(x: Signal, y: Signal) {
    x.mechanics == y.mechanics && x.table == y.table
  }

  /** The label a table gives a raw value: its last entry for it, or the default. */
  function LabelOr(table: seq<ValueLabel>, raw: int, default: int): int {
    if table == [] then default
    else if table[|table| - 1].raw == raw then table[|table| - 1].text
    else LabelOr(table[..|table| - 1], raw, default)
  }

  function LabelConflict(first: seq<ValueLabel>, second: seq<ValueLabel>): Possible<int> {
    if second == [] then Nothing
    else if LabelOr(first, second[0].raw, second[0].text) != second[0].text then Just(second[0].raw)
    else LabelConflict(first, second[1..])
  }

  function ConflictReason(first: Signal, second: Signal): Possible<Reason> {
    if BitsOf(first) * BitsOf(second) != {} then
      if BitsOf(first) != BitsOf(second) then Just(PartialOverlap)
      else
        var clash := LabelConflict(first.table, second.table);
        if clash.Just? then Just(ConflictingLabels(clash.value)) else Just(DifferentMechanics)
    else if first.name == second.name then Just(SameName(first.name))
    else Nothing
  }

  // ---------------------------------------------------------------- the fields of one message

  function IdOf(signal: Signal): int { signal.id }

  /** A parsed definition has at least one span. */
  function FirstSpan(spans: seq<int>): int {
    if spans == [] then 0 else spans[0]
  }

  function AllSpans(signals: seq<Signal>): seq<int> {
    if signals == [] then [] else AllSpans(signals[..|signals| - 1]) + signals[|signals| - 1].spans
  }

  /** The spans of all the signals, sorted, each once. */
  function SpansOf(signals: seq<Signal>): seq<int> {
    SortedKeys(AllSpans(signals), Same)
  }

  predicate AllAlike(signals: seq<Signal>) {
    forall x, y :: x in signals && y in signals ==> SameSignature(x, y)
  }

  function FirstUnlike(x: Signal, others: seq<Signal>): Possible<Signal> {
    if others == [] then Nothing
    else if !SameSignature(others[0], x) then Just(others[0])
    else FirstUnlike(x, others[1..])
  }

  /** Occurrences of one identity must agree; they merge their spans and keep the first one's details. */
  function MergeOne(found: seq<Signal>): Outcome<Signal>
    requires found != []
  {
    match FirstUnlike(found[0], found[1..])
    case Just(other) => Conflict(SameName(found[0].name), FirstSpan(found[0].spans), FirstSpan(other.spans))
    case Nothing => Composed(found[0].(spans := SpansOf(found)))
  }

  function MergeIds(signals: seq<Signal>, ids: seq<int>): Outcome<seq<Signal>>
    requires Inhabited(signals, ids, IdOf)
  {
    if ids == [] then Composed([])
    else
      var n := |ids| - 1;
      match MergeIds(signals, ids[..n])
      case Conflict(reason, first, second) => Conflict(reason, first, second)
      case Composed(merged) =>
        match MergeOne(At(signals, ids[n], IdOf))
        case Conflict(reason, first, second) => Conflict(reason, first, second)
        case Composed(one) => Composed(merged + [one])
  }

  type Group = g: seq<Signal> | g != [] witness [Signal(0, 0, 0, Mechanics(0, 0, Intel, false, 1.0, 0.0, 0.0, 0.0, 0), [], [], SignalDetails([], Nothing, 0, []))]

  /** The group with this signature, or one past the last. */
  function PlaceOf(groups: seq<Group>, x: Signal): (i: nat)
    ensures i <= |groups|
    ensures i < |groups| ==> SameSignature(groups[i][0], x)
    ensures forall j :: 0 <= j < i ==> !SameSignature(groups[j][0], x)
  {
    if groups == [] then 0
    else
      var n := |groups| - 1;
      var i := PlaceOf(groups[..n], x);
      if i < n || SameSignature(groups[n][0], x) then i else n + 1
  }

  function AddToGroup(groups: seq<Group>, x: Signal): seq<Group> {
    var i := PlaceOf(groups, x);
    if i < |groups| then groups[i := groups[i] + [x]] else groups + [[x]]
  }

  /** Groups by signature, in order of first appearance. */
  function Grouped(merged: seq<Signal>): seq<Group> {
    if merged == [] then [] else AddToGroup(Grouped(merged[..|merged| - 1]), merged[|merged| - 1])
  }

  function HeadId(group: Group): int { group[0].id }

  datatype Pair = Pair(reason: Reason, first: int, second: int)

  function ScanSeconds(first: Signal, later: seq<Signal>): Possible<Pair> {
    if later == [] then Nothing
    else
      var reason := ConflictReason(first, later[0]);
      if reason.Just? then Just(Pair(reason.value, FirstSpan(first.spans), FirstSpan(later[0].spans)))
      else ScanSeconds(first, later[1..])
  }

  function ScanFirsts(earlier: seq<Signal>, later: seq<Signal>): Possible<Pair> {
    if earlier == [] then Nothing
    else
      var found := ScanSeconds(earlier[0], later);
      if found.Just? then found else ScanFirsts(earlier[1..], later)
  }

  function ScanEarlier(groups: seq<Group>, later: Group): Possible<Pair> {
    if groups == [] then Nothing
    else
      var found := ScanFirsts(groups[0], later);
      if found.Just? then found else ScanEarlier(groups[1..], later)
  }

  /** The first conflict between fields of different groups, in the order the source compares them. */
  function FirstConflict(groups: seq<Group>): Possible<Pair> {
    if groups == [] then Nothing
    else
      var n := |groups| - 1;
      var found := FirstConflict(groups[..n]);
      if found.Just? then found else ScanEarlier(groups[..n], groups[n])
  }

  function FieldOf(group: Group): Field {
    Field(group[0].(spans := SpansOf(group)), set x | x in group :: x.name, set x | x in group :: x.source)
  }

  function FieldAliases(representative: int, group: seq<Signal>): seq<Alias> {
    if group == [] then []
    else
      var n := |group| - 1;
      var x := group[n];
      FieldAliases(representative, group[..n]) + [Alias(FieldAlias, representative, x.source, x.name, x.id, x.spans)]
  }

  function AliasesOf(groups: seq<Group>): seq<Alias> {
    if groups == [] then []
    else AliasesOf(groups[..|groups| - 1]) + FieldAliases(HeadId(groups[|groups| - 1]), groups[|groups| - 1])
  }

  datatype FieldSet = FieldSet(fields: seq<Field>, aliases: seq<Alias>)

  function ComposeFields(signals: seq<Signal>): Outcome<FieldSet> {
    SortedKeysAreTheKeys(signals, IdOf);
    match MergeIds(signals, SortedKeys(signals, IdOf))
    case Conflict(reason, first, second) => Conflict(reason, first, second)
    case Composed(merged) =>
      var ordered := SortBy(Grouped(merged), HeadId);
      var found := FirstConflict(ordered);
      if found.Just? then Conflict(found.value.reason, found.value.first, found.value.second)
      else Composed(FieldSet(Mapped(ordered, FieldOf), AliasesOf(ordered)))
  }

  // ---------------------------------------------------------------- the messages

  function KeyOf(entry: Entry): int { entry.key }

  function MessageId(entry: Entry): int { entry.message.id }

  function SignalsOf(fragments: seq<Entry>): seq<Signal> {
    if fragments == [] then []
    else SignalsOf(fragments[..|fragments| - 1]) + fragments[|fragments| - 1].message.signals
  }

  /** The first span of the first fragment whose payload length differs from the representative's. */
  function LengthConflict(representative: Message, others: seq<Entry>): Possible<int> {
    if others == [] then Nothing
    else if others[0].message.length != representative.length then Just(FirstSpan(others[0].message.spans))
    else LengthConflict(representative, others[1..])
  }

  function MessageAliases(representative: int, fragments: seq<Entry>): seq<Alias> {
    seq(|fragments|, i requires 0 <= i < |fragments| =>
      var m := fragments[i].message; Alias(MessageAlias, representative, m.source, m.name, m.id, m.spans))
  }

  datatype Result = Result(messages: seq<ComposedMessage>, aliases: seq<Alias>)

  /** Everything of the composed message but its fields. */
  function MessageOf(fragments: seq<Entry>, fields: seq<Field>): ComposedMessage
    requires fragments != []
  {
    var rep := fragments[0].message;
    ComposedMessage(
      fragments[0].key, rep.id, rep.name, rep.length,
      forall i :: 0 <= i < |fragments| ==> fragments[i].message.executable,
      set i, form | 0 <= i < |fragments| && form in fragments[i].message.unsupported :: form,
      fields,
      SortedKeys(MessageSpans(fragments), Same),
      rep.details)
  }

  function MessageSpans(fragments: seq<Entry>): seq<int> {
    if fragments == [] then []
    else MessageSpans(fragments[..|fragments| - 1]) + fragments[|fragments| - 1].message.spans
  }

  function ComposeKey(fragments: seq<Entry>): Outcome<Result>
    requires fragments != []
  {
    var rep := fragments[0].message;
    var differs := LengthConflict(rep, fragments[1..]);
    if differs.Just? then Conflict(PayloadLengths, FirstSpan(rep.spans), differs.value)
    else
      match ComposeFields(SignalsOf(fragments))
      case Conflict(reason, first, second) => Conflict(reason, first, second)
      case Composed(found) =>
        Composed(Result([MessageOf(fragments, found.fields)], MessageAliases(rep.id, fragments) + found.aliases))
  }

  function Fragments(entries: seq<Entry>, key: int): (r: seq<Entry>)
    ensures |r| == |At(entries, key, KeyOf)|
  {
    SortBy(At(entries, key, KeyOf), MessageId)
  }

  /** The results in order, one after the other; or the first conflict. */
  function Collected(outcomes: seq<Outcome<Result>>): Outcome<Result> {
    if outcomes == [] then Composed(Result([], []))
    else
      match Collected(outcomes[..|outcomes| - 1])
      case Conflict(reason, first, second) => Conflict(reason, first, second)
      case Composed(before) =>
        match outcomes[|outcomes| - 1]
        case Conflict(reason, first, second) => Conflict(reason, first, second)
        case Composed(next) => Composed(Result(before.messages + next.messages, before.aliases + next.aliases))
  }

  /** What each key composes to. */
  function OutcomesOf(entries: seq<Entry>, keys: seq<int>): (r: seq<Outcome<Result>>)
    requires Inhabited(entries, keys, KeyOf)
    ensures |r| == |keys|
    ensures forall i :: 0 <= i < |keys| ==> At(entries, keys[i], KeyOf) != [] && r[i] == ComposeKey(Fragments(entries, keys[i]))
  {
    seq(|keys|, i requires 0 <= i < |keys| => ComposeKey(Fragments(entries, keys[i])))
  }

  /** Messages in key order, and the alias inventory; or the first conflict. */
  function Compose(entries: seq<Entry>): Outcome<Result> {
    SortedKeysAreTheKeys(entries, KeyOf);
    Collected(OutcomesOf(entries, SortedKeys(entries, KeyOf)))
  }
}
