/** Chat rows and their merge (ui/lib/chatMessages.ts:42-91 and 124-200). */
module ChatMessages {
  import opened Wrappers
  import opened Sequences

  datatype Role = User | Assistant | System
  datatype EventType = TextEvent | Thought | ToolCall | ToolResult | TurnStart | TurnEnd | SystemEvent | ErrorEvent

  /** `meta` is the canonical text of the metadata: empty when absent or without keys. */
  datatype Message = Message(
    id: string, role: Role, content: string, timestamp: string, eventType: Option<EventType>, meta: string)

  // ---------------------------------------------------------------- order

  /** Date.parse, with None for a timestamp that is not a date, and localeCompare on ids. */
  datatype Platform = Platform(parse: string -> Option<int>, compare: (string, string) -> int)

  function Event(m: Message): EventType { if m.eventType.Some? then m.eventType.value else TextEvent }

  function EventRank(e: EventType): int {
    match e
    case TurnStart => 0
    case Thought => 1
    case ToolCall => 2
    case ToolResult => 3
    case TextEvent => 4
    case TurnEnd => 5
    case SystemEvent => 6
    case ErrorEvent => 7
  }

  /**
   * The comparator does not put `b` strictly before `a`. Unparseable timestamps count as infinite;
   * the difference of two infinities is no number, which a sort takes as a tie.
   */
  predicate MessageLe(p: Platform, a: Message, b: Message) {
    match (p.parse(a.timestamp), p.parse(b.timestamp))
    case (_, None) => true
    case (None, Some(_)) => false
    case (Some(ta), Some(tb)) =>
      if ta != tb then ta < tb
      else if EventRank(Event(a)) != EventRank(Event(b)) then EventRank(Event(a)) < EventRank(Event(b))
      else p.compare(a.id, b.id) <= 0
  }

  function Order(p: Platform): (Message, Message) -> bool { (a, b) => MessageLe(p, a, b) }

  function SortChatMessages(p: Platform, messages: seq<Message>): seq<Message> { SortBy(Order(p), messages) }

  lemma {:induction false} OrderIsPreorder(p: Platform)
    requires Collation(p.compare)
    ensures Preorder(Order(p))
  {
    forall a, b, c | Order(p)(a, b) && Order(p)(b, c) ensures Order(p)(a, c) {
    }
  }

  // ---------------------------------------------------------------- identity

  function RoleText(r: Role): string {
    match r
    case User => "user"
    case Assistant => "assistant"
    case System => "system"
  }

  function EventText(e: EventType): string {
    match e
    case TextEvent => "text"
    case Thought => "thought"
    case ToolCall => "tool_call"
    case ToolResult => "tool_result"
    case TurnStart => "turn_start"
    case TurnEnd => "turn_end"
    case SystemEvent => "system"
    case ErrorEvent => "error"
  }

  /** Role, event type, content and metadata, joined by the unit separator. */
  function Fingerprint(m: Message): string {
    RoleText(m.role) + "\U{001F}" + EventText(Event(m)) + "\U{001F}" + m.content + "\U{001F}" + m.meta
  }

  predicate IsOptimistic(m: Message) { "user-" <= m.id || "stream-" <= m.id }

  predicate IsRolling(m: Message) { "oc-stream-" <= m.id }

  /** A row that has been stored: neither optimistic nor rolling. */
  predicate IsPersisted(m: Message) { !IsOptimistic(m) && !IsRolling(m) }

  // ---------------------------------------------------------------- the merge, one row at a time

  datatype State = State(merged: seq<Message>, byId: map<string, nat>, byPrint: map<string, nat>, changed: bool)
  {
    ghost predicate InRange() {
      && (forall id :: id in byId ==> byId[id] < |merged|)
      && (forall f :: f in byPrint ==> byPrint[f] < |merged|)
    }
  }

  /** Each key at the last position that bears it, as building a Map from entries leaves it. */
  function IndexBy(key: Message -> string, messages: seq<Message>): (index: map<string, nat>)
    ensures forall k :: k in index ==> index[k] < |messages| && key(messages[index[k]]) == k
    ensures forall m :: m in messages ==> key(m) in index
  {
    if messages == [] then map[]
    else
      var n := |messages| - 1;
      assert messages == messages[..n] + [messages[n]];
      IndexBy(key, messages[..n])[key(messages[n]) := n]
  }

  function IdOf(m: Message): string { m.id }

  function Start(existing: seq<Message>): (s: State)
    ensures s.InRange()
  {
    State(existing, IndexBy(IdOf, existing), IndexBy(Fingerprint, existing), false)
  }

  function Step(s: State, m: Message): (s': State)
    requires s.InRange()
    ensures s'.InRange()
  {
    if m.id in s.byId then
      var i := s.byId[m.id];
      if s.merged[i] != m.(id := s.merged[i].id) then s.(merged := s.merged[i := m], changed := true) else s
    else if Fingerprint(m) in s.byPrint then
      var i := s.byPrint[Fingerprint(m)];
      if !IsPersisted(s.merged[i]) && !IsOptimistic(m) then
        State(s.merged[i := m], (s.byId - {s.merged[i].id})[m.id := i], s.byPrint, true)
      else s
    else
      State(s.merged + [m], s.byId[m.id := |s.merged|], s.byPrint[Fingerprint(m) := |s.merged|], true)
  }

  function Run(s: State, incoming: seq<Message>): (s': State)
    requires s.InRange()
    ensures s'.InRange()
  {
    if incoming == [] then s else Step(Run(s, incoming[..|incoming| - 1]), incoming[|incoming| - 1])
  }

  function Merge(p: Platform, existing: seq<Message>, incoming: seq<Message>): seq<Message> {
    var s := Run(Start(existing), incoming);
    if s.changed then SortChatMessages(p, s.merged) else existing
  }

  method MergeChatMessages(p: Platform, existing: seq<Message>, incoming: seq<Message>) returns (r: seq<Message>)
    ensures r == Merge(p, existing, incoming)
  {
    var merged := existing;
    var indexById: map<string, nat> := IndexBy(IdOf, merged);
    var indexByFingerprint: map<string, nat> := IndexBy(Fingerprint, merged);
    var changed := false;
    ghost var start := Start(existing);
    for k := 0 to |incoming|
      invariant Run(start, incoming[..k]) == State(merged, indexById, indexByFingerprint, changed)
    {
      var message := incoming[k];
      assert incoming[..k + 1][..k] == incoming[..k];
      if message.id in indexById {
        var previous := merged[indexById[message.id]];
        if previous.role != message.role || previous.content != message.content
           || previous.timestamp != message.timestamp || previous.eventType != message.eventType
           || previous.meta != message.meta {
          merged := merged[indexById[message.id] := message];
          changed := true;
        }
        continue;
      }
      if Fingerprint(message) in indexByFingerprint {
        var at := indexByFingerprint[Fingerprint(message)];
        var duplicate := merged[at];
        if (IsOptimistic(duplicate) || IsRolling(duplicate)) && !IsOptimistic(message) {
          indexById := indexById - {duplicate.id};
          merged := merged[at := message];
          indexById := indexById[message.id := at];
          changed := true;
        }
        continue;
      }
      indexById := indexById[message.id := |merged|];
      indexByFingerprint := indexByFingerprint[Fingerprint(message) := |merged|];
      merged := merged + [message];
      changed := true;
    }
    assert incoming[..|incoming|] == incoming;
    if !changed {
      return existing;
    }
    return SortChatMessages(p, merged);
  }

  /** Existing rows that are not rolling, or that the snapshot still contains. */
  function WithoutStaleRolling(existing: seq<Message>, incoming: seq<Message>): seq<Message> {
    Filter(NotStale(incoming), existing)
  }

  function NotStale(incoming: seq<Message>): Message -> bool {
    m => !IsRolling(m) || exists n :: n in incoming && n.id == m.id
  }

  /**
   * A filter always makes a new array, so the early return of `existing` never happens: the
   * result is in order even where the merge changed nothing.
   */
  function Reconcile(p: Platform, existing: seq<Message>, incoming: seq<Message>): seq<Message> {
    var kept := WithoutStaleRolling(existing, incoming);
    if Run(Start(kept), incoming).changed then Merge(p, kept, incoming) else SortChatMessages(p, kept)
  }
}
