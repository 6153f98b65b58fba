/**
 * Mirroring a chat log into the rows of a session (api/src/lib/canonicalSessions.ts:217-225,
 * 285-353 and 449-486). The table is the rows of one session by ordinal, which with the session id
 * is its unique key; `created_at` and `updated_at` are not modelled.
 */
module SessionSync {
  import opened Wrappers

  datatype Row = Row(
    role: string, eventType: string, content: string, meta: string, rawPayload: Option<string>,
    timestamp: Option<string>)

  type Table = map<nat, Row>

  /** A row of chat_messages; `id` is its primary key as text. */
  datatype ChatRow = ChatRow(
    id: string, role: Option<string>, eventType: Option<string>, meta: Option<string>,
    content: Option<string>, timestamp: Option<string>)

  /**
   * The text for a row that has no metadata, which names the row and the instance, and
   * `toCanonicalTimestamp`.
   */
  datatype Context = Context(backfillMeta: string -> string, canonicalTime: Option<string> -> Option<string>)

  function GetOr<T>(o: Option<T>, default: T): T { if o.Some? then o.value else default }

  /** The session row that a chat row is written as. */
  function Mirror(cx: Context, c: ChatRow): Row {
    Row(GetOr(c.role, "system"), GetOr(c.eventType, "text"), GetOr(c.content, ""),
        GetOr(c.meta, cx.backfillMeta(c.id)), Some(c.id), cx.canonicalTime(c.timestamp))
  }

  /** INSERT … ON CONFLICT(session_id, ordinal) DO UPDATE: a null payload keeps the stored one. */
  function Upsert(t: Table, ordinal: nat, row: Row): Table {
    if ordinal in t && row.rawPayload.None? then t[ordinal := row.(rawPayload := t[ordinal].rawPayload)]
    else t[ordinal := row]
  }

  // ---------------------------------------------------------------- specification

  ghost predicate Owns(t: Table, ordinal: nat, id: string) {
    ordinal in t && t[ordinal].rawPayload == Some(id)
  }

  /** No payload is stored at two ordinals. */
  ghost predicate PayloadsDistinct(t: Table) {
    forall o, o' :: o in t && o' in t && t[o].rawPayload.Some? && t[o].rawPayload == t[o'].rawPayload ==> o == o'
  }

  ghost predicate IdsDistinct(chat: seq<ChatRow>) {
    forall i, j :: 0 <= i < j < |chat| ==> chat[i].id != chat[j].id
  }

  /** One above the greatest ordinal, or 0. */
  ghost predicate IsNext(t: Table, next: nat) {
    && (forall o :: o in t ==> o < next)
    && (next > 0 ==> next - 1 in t)
  }

  /** `owner` maps each stored payload to an ordinal that stores it. */
  ghost predicate Remembers(t: Table, owner: map<string, nat>) {
    && (forall id :: id in owner ==> Owns(t, owner[id], id))
    && (forall o :: o in t && t[o].rawPayload.Some? ==> t[o].rawPayload.value in owner)
  }

  datatype Written = Written(table: Table, ordinal: nat)

  /** The rows of `chat` written in order, each at the ordinal it is remembered at or the next one. */
  function Write(cx: Context, t: Table, owner: map<string, nat>, next: nat, chat: seq<ChatRow>): Written {
    if chat == [] then Written(t, next)
    else
      var n := |chat| - 1;
      var w := Write(cx, t, owner, next, chat[..n]);
      if chat[n].id in owner then w.(table := Upsert(w.table, owner[chat[n].id], Mirror(cx, chat[n])))
      else Written(Upsert(w.table, w.ordinal, Mirror(cx, chat[n])), w.ordinal + 1)
  }

  /** `t'` is what a sync of `chat` can leave of `t`. */
  ghost predicate Synced(cx: Context, t: Table, chat: seq<ChatRow>, t': Table) {
    exists owner, next :: Remembers(t, owner) && IsNext(t, next) && t' == Write(cx, t, owner, next, chat).table
  }

  // ---------------------------------------------------------------- the algorithm

  class SessionMessages {
    var table: Table
    var messageCount: nat

    constructor ()
      ensures table == map[] && messageCount == 0
    {
      table, messageCount := map[], 0;
    }

    /** SELECT raw_payload, ordinal … WHERE raw_payload IS NOT NULL, as a Map. */
    method RememberedOrdinals() returns (byPayload: map<string, nat>)
      ensures Remembers(table, byPayload)
    {
      byPayload := map[];
      var rest := table.Keys;
      while rest != {}
        invariant rest <= table.Keys
        invariant forall id :: id in byPayload ==> Owns(table, byPayload[id], id)
        invariant forall o :: o in table && o !in rest && table[o].rawPayload.Some? ==>
            table[o].rawPayload.value in byPayload
        decreases rest
      {
        var o :| o in rest;
        rest := rest - {o};
        if table[o].rawPayload.Some? {
          byPayload := byPayload[table[o].rawPayload.value := o];
        }
      }
    }

    method NextOrdinal() returns (next: nat)
      ensures IsNext(table, next)
    {
      next := 0;
      var rest := table.Keys;
      while rest != {}
        invariant rest <= table.Keys
        invariant forall o :: o in table && o !in rest ==> o < next
        invariant next > 0 ==> next - 1 in table
        decreases rest
      {
        var o :| o in rest;
        rest := rest - {o};
        if o >= next { next := o + 1; }
      }
    }

    /** Answers the number of chat rows; an empty log leaves even the count alone. */
    method SyncFromChat(cx: Context, chat: seq<ChatRow>) returns (synced: nat)
      modifies this
      ensures synced == |chat|
      ensures Synced(cx, old(table), chat, table)
      ensures messageCount == if chat == [] then old(messageCount) else |table|
    {
      var byPayload := RememberedOrdinals();
      var ordinal := NextOrdinal();
      ghost var t, next := table, ordinal;
      if chat == [] {
        assert table == Write(cx, t, byPayload, next, chat).table;
        return 0;
      }
      for i := 0 to |chat|
        invariant Written(table, ordinal) == Write(cx, t, byPayload, next, chat[..i])
        invariant messageCount == old(messageCount)
      {
        assert chat[..i + 1][..i] == chat[..i];
        if chat[i].id in byPayload {
          table := Upsert(table, byPayload[chat[i].id], Mirror(cx, chat[i]));
        } else {
          table := Upsert(table, ordinal, Mirror(cx, chat[i]));
          ordinal := ordinal + 1;
        }
      }
      assert chat[..|chat|] == chat;
      SyncMessageCount();
      return |chat|;
    }

    method SyncMessageCount()
      modifies this`messageCount
      ensures messageCount == |table|
    {
      messageCount := |table|;
    }

    /** Upsert the messages of a transcript at the ordinals 0, 1, 2, … */
    method IngestTranscript(messages: seq<Row>)
      modifies this
      ensures table == Ingest(old(table), messages) && messageCount == |table|
    {
      for i := 0 to |messages|
        invariant table == Ingest(old(table), messages[..i])
      {
        assert messages[..i + 1][..i] == messages[..i];
        table := Upsert(table, i, messages[i]);
      }
      assert messages[..|messages|] == messages;
      SyncMessageCount();
    }
  }

  function Ingest(t: Table, messages: seq<Row>): Table {
    if messages == [] then t
    else Upsert(Ingest(t, messages[..|messages| - 1]), |messages| - 1, messages[|messages| - 1])
  }

  // ---------------------------------------------------------------- one sync

  /** Ordinals are used up without gaps. */
  ghost predicate Dense(next: nat, w: Written) {
    && next <= w.ordinal
    && (forall o :: o in w.table ==> o < w.ordinal)
    && (forall o :: next <= o < w.ordinal ==> o in w.table)
  }

  /** No row goes away or changes owner, and only rows of the log are rewritten. */
  ghost predicate Retained(t: Table, chat: seq<ChatRow>, t': Table) {
    && (forall o :: o in t ==> o in t' && t'[o].rawPayload == t[o].rawPayload)
    && (forall o :: o in t && (forall c :: c in chat ==> t[o].rawPayload != Some(c.id)) ==> t'[o] == t[o])
  }

  /** New rows are above all old ones, and each is owned by a row of the log that owned none. */
  ghost predicate FreshOwned(t: Table, owner: map<string, nat>, next: nat, chat: seq<ChatRow>, t': Table) {
    forall o :: o in t' && o !in t ==> o >= next && exists c :: c in chat && c.id !in owner && Owns(t', o, c.id)
  }

  ghost predicate IsMirrored(cx: Context, t: Table, c: ChatRow) {
    exists o :: Owns(t, o, c.id) && t[o] == Mirror(cx, c)
  }

  ghost predicate Mirrored(cx: Context, chat: seq<ChatRow>, t: Table) {
    forall c :: c in chat ==> IsMirrored(cx, t, c)
  }

  /** What is true of the table and the counter after any part of the log. */
  ghost predicate Placed(cx: Context, t: Table, owner: map<string, nat>, next: nat, chat: seq<ChatRow>, w: Written) {
    && Dense(next, w) && PayloadsDistinct(w.table) && Retained(t, chat, w.table)
    && FreshOwned(t, owner, next, chat, w.table) && Mirrored(cx, chat, w.table)
  }

  /** The ordinal for the next row of the log. */
  function Target(owner: map<string, nat>, c: ChatRow, w: Written): nat {
    if c.id in owner then owner[c.id] else w.ordinal
  }

  function PlaceRow(cx: Context, owner: map<string, nat>, c: ChatRow, w: Written): Written {
    Written(w.table[Target(owner, c, w) := Mirror(cx, c)], if c.id in owner then w.ordinal else w.ordinal + 1)
  }

  lemma {:induction false} WritePlaces(cx: Context, t: Table, owner: map<string, nat>, next: nat, chat: seq<ChatRow>)
    requires Remembers(t, owner) && IsNext(t, next) && PayloadsDistinct(t) && IdsDistinct(chat)
    ensures Placed(cx, t, owner, next, chat, Write(cx, t, owner, next, chat))
  {
    hide Placed, Remembers, IsNext, PayloadsDistinct, Mirror;
    if chat == [] {
      NothingPlaced(cx, t, owner, next);
    } else {
      var n := |chat| - 1;
      var w := Write(cx, t, owner, next, chat[..n]);
      WritePlaces(cx, t, owner, next, chat[..n]);
      PlaceOne(cx, t, owner, next, chat[..n], chat[n], w);
      assert chat == chat[..n] + [chat[n]];
      assert Mirror(cx, chat[n]).rawPayload == Some(chat[n].id) by { MirrorOwns(cx, chat[n]); }
      assert Write(cx, t, owner, next, chat) == PlaceRow(cx, owner, chat[n], w);
    }
  }

  lemma {:induction false} MirrorOwns(cx: Context, c: ChatRow)
    ensures Mirror(cx, c).rawPayload == Some(c.id)
  {
  }

  lemma {:induction false} NothingPlaced(cx: Context, t: Table, owner: map<string, nat>, next: nat)
    requires Remembers(t, owner) && IsNext(t, next) && PayloadsDistinct(t)
    ensures Placed(cx, t, owner, next, [], Write(cx, t, owner, next, []))
  {
  }

  /** Nobody but the remembered ordinal owns the next row's id. */
  lemma {:induction false} OnlyOwner(t: Table, owner: map<string, nat>, next: nat, before: seq<ChatRow>, c: ChatRow,
                                     t': Table, o: nat)
    requires Remembers(t, owner) && PayloadsDistinct(t') && Retained(t, before, t')
        && FreshOwned(t, owner, next, before, t')
    requires forall b :: b in before ==> b.id != c.id
    requires Owns(t', o, c.id)
    ensures c.id in owner && owner[c.id] == o
  {
    if o !in t {
      assert false;
    }
    assert Owns(t, o, c.id);
    assert Owns(t', owner[c.id], c.id);
  }

  lemma {:induction false} PlaceOne(cx: Context, t: Table, owner: map<string, nat>, next: nat, before: seq<ChatRow>,
                                    c: ChatRow, w: Written)
    requires Remembers(t, owner) && IsNext(t, next) && PayloadsDistinct(t)
    requires forall b :: b in before ==> b.id != c.id
    requires Placed(cx, t, owner, next, before, w)
    ensures Placed(cx, t, owner, next, before + [c], PlaceRow(cx, owner, c, w))
  {
    hide Mirror, Dense, Retained, FreshOwned, PayloadsDistinct, IsMirrored;
    MirrorOwns(cx, c);
    forall o | Owns(w.table, o, c.id) ensures c.id in owner && owner[c.id] == o {
      OnlyOwner(t, owner, next, before, c, w.table, o);
    }
    var w', at := PlaceRow(cx, owner, c, w), Target(owner, c, w);
    AtTarget(t, owner, next, before, c, w);
    PlaceDense(cx, t, owner, next, c, w);
    PlaceDistinct(w.table, at, Mirror(cx, c), c.id);
    PlaceRetains(t, before, c, w.table, at, Mirror(cx, c));
    PlaceFresh(t, owner, next, before, c, w.table, at, Mirror(cx, c));
    forall x | x in before + [c] ensures IsMirrored(cx, w'.table, x) {
      PlaceMirrors(cx, before, c, w.table, at, x);
    }
  }

  lemma {:induction false} AtTarget(t: Table, owner: map<string, nat>, next: nat, before: seq<ChatRow>, c: ChatRow,
                                    w: Written)
    requires Remembers(t, owner) && Dense(next, w) && Retained(t, before, w.table)
    requires IsNext(t, next)
    ensures Target(owner, c, w) in w.table ==> w.table[Target(owner, c, w)].rawPayload == Some(c.id)
    ensures Target(owner, c, w) in t ==> t[Target(owner, c, w)].rawPayload == Some(c.id)
    ensures Target(owner, c, w) !in t ==> Target(owner, c, w) >= next && c.id !in owner
  {
    if c.id in owner { assert Owns(t, owner[c.id], c.id); }
  }

  lemma {:induction false} PlaceDense(cx: Context, t: Table, owner: map<string, nat>, next: nat, c: ChatRow, w: Written)
    requires Remembers(t, owner) && IsNext(t, next) && Dense(next, w)
    ensures Dense(next, PlaceRow(cx, owner, c, w))
  {
    hide Mirror;
    if c.id in owner { assert owner[c.id] < next; }
  }

  lemma {:induction false} PlaceDistinct(t: Table, at: nat, row: Row, id: string)
    requires PayloadsDistinct(t) && row.rawPayload == Some(id)
    requires forall o :: Owns(t, o, id) ==> o == at
    ensures PayloadsDistinct(t[at := row])
  {
    forall o | o in t && o != at ensures t[o].rawPayload != Some(id) {
      assert !Owns(t, o, id);
    }
  }

  lemma {:induction false} PlaceRetains(t: Table, before: seq<ChatRow>, c: ChatRow, t': Table, at: nat, row: Row)
    requires Retained(t, before, t') && row.rawPayload == Some(c.id)
    requires at in t ==> t[at].rawPayload == Some(c.id)
    ensures Retained(t, before + [c], t'[at := row])
  {
    forall o | o in t && (forall x :: x in before + [c] ==> t[o].rawPayload != Some(x.id))
      ensures t'[at := row][o] == t[o]
    {
      assert c in before + [c];
      assert forall b :: b in before ==> b in before + [c];
    }
  }

  lemma {:induction false} PlaceFresh(t: Table, owner: map<string, nat>, next: nat, before: seq<ChatRow>, c: ChatRow,
                                      t': Table, at: nat, row: Row)
    requires FreshOwned(t, owner, next, before, t') && row.rawPayload == Some(c.id)
    requires at !in t ==> at >= next && c.id !in owner
    ensures FreshOwned(t, owner, next, before + [c], t'[at := row])
  {
    var t'' := t'[at := row];
    forall o | o in t'' && o !in t
      ensures o >= next && exists x :: x in before + [c] && x.id !in owner && Owns(t'', o, x.id)
    {
      if o == at {
        assert c in before + [c] && Owns(t'', o, c.id);
      } else {
        var b :| b in before && b.id !in owner && Owns(t', o, b.id);
        assert b in before + [c] && Owns(t'', o, b.id);
      }
    }
  }

  lemma {:induction false} PlaceMirrors(cx: Context, before: seq<ChatRow>, c: ChatRow, t: Table, at: nat, x: ChatRow)
    requires Mirrored(cx, before, t) && x in before + [c] && forall b :: b in before ==> b.id != c.id
    requires forall o :: Owns(t, o, c.id) ==> o == at
    requires at in t ==> t[at].rawPayload == Some(c.id)
    ensures IsMirrored(cx, t[at := Mirror(cx, c)], x)
  {
    var t' := t[at := Mirror(cx, c)];
    if x == c {
      assert Owns(t', at, c.id) && t'[at] == Mirror(cx, c);
    } else {
      assert IsMirrored(cx, t, x);
      var o :| Owns(t, o, x.id) && t[o] == Mirror(cx, x);
      assert Owns(t', o, x.id) && t'[o] == Mirror(cx, x);
    }
  }

  /**
   * One sync of a log with distinct ids, from a table with distinct payloads: every row of the log
   * ends up mirrored at exactly one ordinal, owners keep their ordinals, rows of other origin are
   * untouched, and new ordinals start above all old ones.
   */
  lemma {:induction false} SyncMirrorsLog(cx: Context, t: Table, chat: seq<ChatRow>, t': Table)
    requires PayloadsDistinct(t) && IdsDistinct(chat) && Synced(cx, t, chat, t')
    ensures PayloadsDistinct(t') && Retained(t, chat, t') && Mirrored(cx, chat, t')
    ensures forall o, o' :: o in t && o' in t' && o' !in t ==> o < o'
  {
    hide Placed, PayloadsDistinct, Mirrored, Retained;
    var owner, next :| Remembers(t, owner) && IsNext(t, next) && t' == Write(cx, t, owner, next, chat).table;
    WritePlaces(cx, t, owner, next, chat);
    PlacedParts(cx, t, owner, next, chat, Write(cx, t, owner, next, chat));
  }

  lemma {:induction false} PlacedParts(cx: Context, t: Table, owner: map<string, nat>, next: nat, chat: seq<ChatRow>,
                                       w: Written)
    requires Placed(cx, t, owner, next, chat, w)
    ensures PayloadsDistinct(w.table) && Retained(t, chat, w.table) && Mirrored(cx, chat, w.table)
    ensures forall o :: o in w.table && o !in t ==> o >= next
  {
  }

  // ---------------------------------------------------------------- what a synced row holds, and where

  /** A row holds what a chat row says: its own fields, or else the given defaults. */
  ghost predicate Holds(cx: Context, row: Row, c: ChatRow) {
    && row.role == (match c.role case Some(role) => role case None => "system")
    && row.eventType == (match c.eventType case Some(e) => e case None => "text")
    && row.content == (match c.content case Some(content) => content case None => "")
    && row.meta == (match c.meta case Some(meta) => meta case None => cx.backfillMeta(c.id))
    && row.rawPayload == Some(c.id)
    && row.timestamp == cx.canonicalTime(c.timestamp)
  }

  lemma {:induction false} OnlyOne(t: Table, id: string)
    requires PayloadsDistinct(t)
    ensures forall o, o' :: Owns(t, o, id) && Owns(t, o', id) ==> o == o'
  {
  }

  ghost predicate Unowned(t: Table, id: string) { forall o :: o in t ==> t[o].rawPayload != Some(id) }

  /** How many rows of the log the table does not have yet. */
  ghost function NewIn(t: Table, chat: seq<ChatRow>): nat {
    if chat == [] then 0 else NewIn(t, chat[..|chat| - 1]) + if Unowned(t, chat[|chat| - 1].id) then 1 else 0
  }

  lemma {:induction false} RememberedIsOwned(t: Table, owner: map<string, nat>, id: string)
    requires Remembers(t, owner)
    ensures id !in owner <==> Unowned(t, id)
  {
    if id in owner { assert Owns(t, owner[id], id); }
  }

  lemma {:induction false} WriteCounts(cx: Context, t: Table, owner: map<string, nat>, next: nat, chat: seq<ChatRow>)
    requires Remembers(t, owner)
    ensures Write(cx, t, owner, next, chat).ordinal == next + NewIn(t, chat)
  {
    hide Mirror, Upsert;
    if chat == [] {
    } else {
      WriteCounts(cx, t, owner, next, chat[..|chat| - 1]);
      RememberedIsOwned(t, owner, chat[|chat| - 1].id);
    }
  }

  lemma {:induction false} WriteStep(cx: Context, t: Table, owner: map<string, nat>, next: nat, chat: seq<ChatRow>)
    requires chat != []
    ensures var n := |chat| - 1;
            Write(cx, t, owner, next, chat) == PlaceRow(cx, owner, chat[n], Write(cx, t, owner, next, chat[..n]))
  {
    MirrorOwns(cx, chat[|chat| - 1]);
  }

  /** Where a row of the log is written: at the ordinal it is remembered at, or in turn behind all others. */
  ghost function PlaceFor(t: Table, owner: map<string, nat>, next: nat, chat: seq<ChatRow>, i: nat): nat
    requires i < |chat|
  {
    if chat[i].id in owner then owner[chat[i].id] else next + NewIn(t, chat[..i])
  }

  lemma {:induction false} PlacesDiffer(t: Table, owner: map<string, nat>, next: nat, chat: seq<ChatRow>, i: nat,
                                        n: nat)
    requires Remembers(t, owner) && IsNext(t, next) && IdsDistinct(chat) && i < n < |chat|
    ensures PlaceFor(t, owner, next, chat, i) != PlaceFor(t, owner, next, chat, n)
  {
    hide IsNext;
    var a, b := chat[i].id, chat[n].id;
    RememberedIsOwned(t, owner, a);
    if a in owner { assert Owns(t, owner[a], a) && owner[a] < next by { OwnerIsBelow(t, owner, next, a); } }
    if b in owner { assert Owns(t, owner[b], b) && owner[b] < next by { OwnerIsBelow(t, owner, next, b); } }
    NewInGrows(t, chat, i, n);
  }

  lemma {:induction false} OwnerIsBelow(t: Table, owner: map<string, nat>, next: nat, id: string)
    requires Remembers(t, owner) && IsNext(t, next) && id in owner
    ensures Owns(t, owner[id], id) && owner[id] < next
  {
  }

  lemma {:induction false} NewInGrows(t: Table, chat: seq<ChatRow>, i: nat, n: nat)
    requires i < n <= |chat|
    ensures NewIn(t, chat[..i]) + (if Unowned(t, chat[i].id) then 1 else 0) <= NewIn(t, chat[..n])
  {
    assert chat[..n][..n - 1] == chat[..n - 1];
    if i < n - 1 { NewInGrows(t, chat, i, n - 1); }
  }

  lemma {:induction false} RowIsPlaced(cx: Context, t: Table, owner: map<string, nat>, next: nat, chat: seq<ChatRow>,
                                       i: nat)
    requires Remembers(t, owner) && IsNext(t, next) && IdsDistinct(chat) && i < |chat|
    ensures var w, at := Write(cx, t, owner, next, chat), PlaceFor(t, owner, next, chat, i);
            at in w.table && w.table[at] == Mirror(cx, chat[i])
  {
    hide Mirror, Remembers, IsNext, Write, IdsDistinct;
    var n := |chat| - 1;
    WriteStep(cx, t, owner, next, chat);
    WriteCounts(cx, t, owner, next, chat[..n]);
    if i < n {
      assert IdsDistinct(chat[..n]) by { FrontDistinct(chat); }
      RowIsPlaced(cx, t, owner, next, chat[..n], i);
      assert chat[..n][..i] == chat[..i];
      PlacesDiffer(t, owner, next, chat, i, n);
    }
  }

  lemma {:induction false} FrontDistinct(chat: seq<ChatRow>)
    requires IdsDistinct(chat) && chat != []
    ensures IdsDistinct(chat[..|chat| - 1])
  {
  }

  /**
   * After a sync each row of the log has an ordinal with its id, whose row holds what the log says, even
   * if payloads were stored twice before; if they were not, it is the only ordinal with that id.
   */
  lemma {:induction false} SyncStoresLog(cx: Context, t: Table, chat: seq<ChatRow>, t': Table, c: ChatRow)
    returns (o: nat)
    requires IdsDistinct(chat) && Synced(cx, t, chat, t') && c in chat
    ensures o in t' && Holds(cx, t'[o], c)
    ensures PayloadsDistinct(t) ==> forall o' :: o' in t' && t'[o'].rawPayload == Some(c.id) ==> o' == o
  {
    hide PayloadsDistinct, Write, Remembers, IsNext, IdsDistinct;
    var owner, next :| Remembers(t, owner) && IsNext(t, next) && t' == Write(cx, t, owner, next, chat).table;
    var i :| 0 <= i < |chat| && chat[i] == c;
    RowIsPlaced(cx, t, owner, next, chat, i);
    o := PlaceFor(t, owner, next, chat, i);
    if PayloadsDistinct(t) {
      SyncMirrorsLog(cx, t, chat, t');
      OnlyOne(t', c.id);
      forall o' | o' in t' && t'[o'].rawPayload == Some(c.id) ensures o' == o {
        assert Owns(t', o', c.id) && Owns(t', o, c.id);
      }
    }
  }

  /** A new row is written at the next ordinal, and nothing later in the log is written there. */
  lemma {:induction false} NewRowStays(cx: Context, t: Table, owner: map<string, nat>, next: nat, chat: seq<ChatRow>,
                                       i: nat)
    requires Remembers(t, owner) && IsNext(t, next) && i < |chat| && Unowned(t, chat[i].id)
    ensures var o := next + NewIn(t, chat[..i]); Owns(Write(cx, t, owner, next, chat).table, o, chat[i].id)
    ensures NewIn(t, chat) > NewIn(t, chat[..i])
  {
    hide Mirror, Upsert, Write;
    var n := |chat| - 1;
    WriteCounts(cx, t, owner, next, chat[..n]);
    RememberedIsOwned(t, owner, chat[n].id);
    MirrorOwns(cx, chat[n]);
    WriteStep(cx, t, owner, next, chat);
    if i < n {
      assert chat[..n][..i] == chat[..i];
      NewRowStays(cx, t, owner, next, chat[..n], i);
      if chat[n].id in owner { assert Owns(t, owner[chat[n].id], chat[n].id); }
    }
  }

  /** New rows are numbered in the order of the log, from one above the greatest ordinal, without gaps. */
  lemma {:induction false} NewRowsFollowLog(cx: Context, t: Table, chat: seq<ChatRow>, t': Table, next: nat, i: nat,
                                            o: nat)
    requires PayloadsDistinct(t) && IdsDistinct(chat) && Synced(cx, t, chat, t') && IsNext(t, next)
    requires i < |chat| && Unowned(t, chat[i].id) && Owns(t', o, chat[i].id)
    ensures o == next + NewIn(t, chat[..i])
  {
    hide PayloadsDistinct;
    SyncMirrorsLog(cx, t, chat, t');
    var owner, next' :| Remembers(t, owner) && IsNext(t, next') && t' == Write(cx, t, owner, next', chat).table;
    assert next' == next;
    NewRowStays(cx, t, owner, next, chat, i);
    OnlyOne(t', chat[i].id);
  }

  // ---------------------------------------------------------------- syncing again

  lemma {:induction false} WriteAgain(cx: Context, t: Table, owner: map<string, nat>, next: nat, chat: seq<ChatRow>)
    requires Remembers(t, owner) && PayloadsDistinct(t) && Mirrored(cx, chat, t)
    ensures Write(cx, t, owner, next, chat) == Written(t, next)
  {
    if chat == [] {
    } else {
      var n := |chat| - 1;
      WriteAgain(cx, t, owner, next, chat[..n]);
      assert IsMirrored(cx, t, chat[n]);
      var o :| Owns(t, o, chat[n].id) && t[o] == Mirror(cx, chat[n]);
      assert Owns(t, owner[chat[n].id], chat[n].id);
      assert t[o := t[o]] == t;
    }
  }

  /** Syncing the same log again changes no row. */
  lemma {:induction false} SyncIsIdempotent(cx: Context, t: Table, chat: seq<ChatRow>, t': Table, t'': Table)
    requires PayloadsDistinct(t) && IdsDistinct(chat) && Synced(cx, t, chat, t') && Synced(cx, t', chat, t'')
    ensures t'' == t'
  {
    hide PayloadsDistinct, Mirrored, Write;
    SyncMirrorsLog(cx, t, chat, t');
    var owner, next :| Remembers(t', owner) && IsNext(t', next) && t'' == Write(cx, t', owner, next, chat).table;
    WriteAgain(cx, t', owner, next, chat);
  }

  // ---------------------------------------------------------------- transcript ingest

  /** The payload that a transcript brings for an ordinal. */
  function Brought(messages: seq<Row>, o: nat): Option<string> {
    if o < |messages| then messages[o].rawPayload else None
  }

  function Stored(t: Table, o: nat): Option<string> { if o in t then t[o].rawPayload else None }

  lemma {:induction false} IngestAt(t: Table, messages: seq<Row>, o: nat)
    ensures o in Ingest(t, messages) <==> o in t || o < |messages|
    ensures var payload := if Brought(messages, o).Some? then Brought(messages, o) else Stored(t, o);
            o in Ingest(t, messages) ==>
              Ingest(t, messages)[o] == (if o < |messages| then messages[o] else t[o]).(rawPayload := payload)
  {
    if messages == [] {
    } else {
      IngestAt(t, messages[..|messages| - 1], o);
    }
  }

  /** At each ordinal nothing is brought, or nothing was stored, or both are the same. */
  ghost predicate KeepsOwners(t: Table, messages: seq<Row>) {
    forall o: nat :: o < |messages| ==>
      Brought(messages, o).None? || Stored(t, o).None? || Brought(messages, o) == Stored(t, o)
  }

  /** No payload is brought for an ordinal while another ordinal is brought it, or keeps it. */
  ghost predicate BringsNoSecond(t: Table, messages: seq<Row>) {
    forall i: nat, o: nat :: i < |messages| && Brought(messages, i).Some? && o != i ==>
      && Brought(messages, o) != Brought(messages, i)
      && (Brought(messages, o).None? ==> Stored(t, o) != Brought(messages, i))
  }

  /** No owner loses its ordinal. */
  ghost predicate OwnersStay(t: Table, t': Table) {
    forall o :: o in t && t[o].rawPayload.Some? ==> o in t' && t'[o].rawPayload == t[o].rawPayload
  }

  lemma {:induction false} IngestKeepsOwnersIff(t: Table, messages: seq<Row>)
    ensures OwnersStay(t, Ingest(t, messages)) <==> KeepsOwners(t, messages)
  {
    hide Ingest;
    forall o: nat { IngestAt(t, messages, o); }
    if OwnersStay(t, Ingest(t, messages)) {
      forall o: nat | o < |messages|
        ensures Brought(messages, o).None? || Stored(t, o).None? || Brought(messages, o) == Stored(t, o)
      {
        IngestAt(t, messages, o);
        if o in t && t[o].rawPayload.Some? { assert Ingest(t, messages)[o].rawPayload == t[o].rawPayload; }
      }
    } else {
      var o :| o in t && t[o].rawPayload.Some?
          && !(o in Ingest(t, messages) && Ingest(t, messages)[o].rawPayload == t[o].rawPayload);
      IngestAt(t, messages, o);
      assert o < |messages|;
    }
  }

  /** An ingest stores no payload twice if and only if it brings none that another ordinal is brought or keeps. */
  lemma {:induction false} IngestKeepsDistinctIff(t: Table, messages: seq<Row>)
    requires PayloadsDistinct(t)
    ensures PayloadsDistinct(Ingest(t, messages)) <==> BringsNoSecond(t, messages)
  {
    var t' := Ingest(t, messages);
    hide Ingest;
    forall o: nat
      ensures (o in t' <==> o in t || o < |messages|)
      ensures o in t' ==> t'[o].rawPayload == if Brought(messages, o).Some? then Brought(messages, o) else Stored(t, o)
    {
      IngestAt(t, messages, o);
    }
    if PayloadsDistinct(t') {
      forall i: nat, o: nat | i < |messages| && Brought(messages, i).Some? && o != i
        ensures Brought(messages, o) != Brought(messages, i)
            && (Brought(messages, o).None? ==> Stored(t, o) != Brought(messages, i))
      {
        assert i in t' && t'[i].rawPayload == Brought(messages, i);
        if o in t' { assert t'[o].rawPayload != t'[i].rawPayload; }
      }
    }
    if BringsNoSecond(t, messages) {
      forall o, o' | o in t' && o' in t' && t'[o].rawPayload.Some? && t'[o].rawPayload == t'[o'].rawPayload
        ensures o == o'
      {
      }
    }
  }

  /** A transcript that lost its first message: one payload ends up at two ordinals. */
  lemma {:induction false} ShiftedIngestStoresTwice(a: Row, b: Row)
    requires a.rawPayload == Some("1") && b.rawPayload == Some("2")
    ensures var t := map[0 := a, 1 := b]; PayloadsDistinct(t) && !PayloadsDistinct(Ingest(t, [b]))
  {
    var t := map[0 := a, 1 := b];
    assert "1"[0] != "2"[0];
    assert Brought([b], 0) == Some("2") && Brought([b], 1) == None && Stored(t, 1) == Some("2");
    IngestKeepsDistinctIff(t, [b]);
  }

  /** A transcript that begins with another message: the owner of ordinal 0 owns none afterwards. */
  lemma {:induction false} IngestCanEvict(a: Row, b: Row)
    requires a.rawPayload == Some("5") && b.rawPayload == Some("7")
    ensures var t := map[0 := a];
            Owns(t, 0, "5") && BringsNoSecond(t, [b]) && forall o :: !Owns(Ingest(t, [b]), o, "5")
  {
    assert "5"[0] != "7"[0];
    assert [b][..0] == [];
    assert Ingest(map[0 := a], []) == map[0 := a];
    assert Ingest(map[0 := a], [b]) == map[0 := b];
  }

  // ---------------------------------------------------------------- any run of syncs and ingests

  datatype Step = Sync(log: seq<ChatRow>) | Read(messages: seq<Row>)

  /** What a step makes of a table. */
  ghost predicate Stepped(cx: Context, t: Table, step: Step, t': Table) {
    match step
    case Sync(log) => Synced(cx, t, log, t')
    case Read(messages) => t' == Ingest(t, messages)
  }

  /** The ids of a log are distinct; a transcript evicts no owner and brings no payload a second time. */
  ghost predicate Clean(t: Table, step: Step) {
    match step
    case Sync(log) => IdsDistinct(log)
    case Read(messages) => KeepsOwners(t, messages) && BringsNoSecond(t, messages)
  }

  ghost predicate IsRun(cx: Context, steps: seq<Step>, tables: seq<Table>) {
    && |tables| == |steps| + 1
    && (forall k :: 0 <= k < |steps| ==> Clean(tables[k], steps[k]))
    && (forall k :: 0 <= k < |steps| ==> Stepped(cx, tables[k], steps[k], tables[k + 1]))
  }

  /** The step may write the row at ordinal `o`. */
  ghost predicate Writes(step: Step, row: Row, o: nat) {
    match step
    case Sync(log) => exists c :: c in log && row.rawPayload == Some(c.id)
    case Read(messages) => o < |messages|
  }

  lemma {:induction false} StepKeepsOwners(cx: Context, t: Table, step: Step, t': Table)
    requires PayloadsDistinct(t) && Clean(t, step) && Stepped(cx, t, step, t')
    ensures PayloadsDistinct(t') && OwnersStay(t, t')
    ensures forall o :: o in t && !Writes(step, t[o], o) ==> o in t' && t'[o] == t[o]
  {
    hide PayloadsDistinct, Synced, Ingest, BringsNoSecond, KeepsOwners;
    match step
    case Sync(log) => SyncMirrorsLog(cx, t, log, t');
    case Read(messages) =>
      IngestKeepsDistinctIff(t, messages);
      IngestKeepsOwnersIff(t, messages);
      forall o | o in t && !Writes(step, t[o], o) ensures o in t' && t'[o] == t[o] {
        IngestAt(t, messages, o);
      }
  }

  /** What is clean is exactly what a transcript must be for all owners to stay, one ordinal each. */
  lemma {:induction false} CleanReadIff(t: Table, messages: seq<Row>)
    requires PayloadsDistinct(t)
    ensures Clean(t, Read(messages)) <==> PayloadsDistinct(Ingest(t, messages)) && OwnersStay(t, Ingest(t, messages))
  {
    IngestKeepsDistinctIff(t, messages);
    IngestKeepsOwnersIff(t, messages);
  }

  lemma {:induction false} RunKeepsDistinct(cx: Context, steps: seq<Step>, tables: seq<Table>, j: nat)
    requires IsRun(cx, steps, tables) && PayloadsDistinct(tables[0]) && j < |tables|
    ensures PayloadsDistinct(tables[j])
  {
    if j == 0 {
    } else {
      RunKeepsDistinct(cx, steps, tables, j - 1);
      StepKeepsOwners(cx, tables[j - 1], steps[j - 1], tables[j]);
    }
  }

  /** Over any run of syncs and clean ingests an owner keeps its one ordinal for good. */
  lemma {:induction false} OrdinalsNeverChange(cx: Context, steps: seq<Step>, tables: seq<Table>, i: nat, j: nat,
                                               o: nat, id: string)
    requires IsRun(cx, steps, tables) && PayloadsDistinct(tables[0]) && i <= j < |tables| && Owns(tables[i], o, id)
    ensures Owns(tables[j], o, id) && forall o' :: Owns(tables[j], o', id) ==> o' == o
    decreases j
  {
    hide PayloadsDistinct, Clean, Stepped;
    RunKeepsDistinct(cx, steps, tables, j);
    OnlyOne(tables[j], id);
    if i == j {
    } else {
      OrdinalsNeverChange(cx, steps, tables, i, j - 1, o, id);
      RunKeepsDistinct(cx, steps, tables, j - 1);
      StepKeepsOwners(cx, tables[j - 1], steps[j - 1], tables[j]);
    }
  }

  /** A row that no step writes stays as it is: one of other origin, beyond the end of every transcript. */
  lemma {:induction false} OtherRowsNeverChange(cx: Context, steps: seq<Step>, tables: seq<Table>, i: nat, j: nat,
                                                o: nat)
    requires IsRun(cx, steps, tables) && PayloadsDistinct(tables[0]) && i <= j < |tables| && o in tables[i]
    requires forall k :: i <= k < j ==> !Writes(steps[k], tables[i][o], o)
    ensures o in tables[j] && tables[j][o] == tables[i][o]
    decreases j
  {
    hide PayloadsDistinct, Clean, Stepped, Writes;
    if i == j {
    } else {
      OtherRowsNeverChange(cx, steps, tables, i, j - 1, o);
      RunKeepsDistinct(cx, steps, tables, j - 1);
      StepKeepsOwners(cx, tables[j - 1], steps[j - 1], tables[j]);
    }
  }

  /** Once a sync has seen a row of the log, it is owned by exactly one ordinal ever after. */
  lemma {:induction false} SeenRowsStayMirrored(cx: Context, steps: seq<Step>, tables: seq<Table>, k: nat, j: nat,
                                                c: ChatRow)
    returns (o: nat)
    requires IsRun(cx, steps, tables) && PayloadsDistinct(tables[0]) && k < |steps| && k < j < |tables|
    requires steps[k].Sync? && c in steps[k].log
    ensures Owns(tables[j], o, c.id) && forall o' :: Owns(tables[j], o', c.id) ==> o' == o
    ensures j == k + 1 ==> tables[j][o] == Mirror(cx, c)
  {
    RunKeepsDistinct(cx, steps, tables, k);
    assert Clean(tables[k], steps[k]) && Stepped(cx, tables[k], steps[k], tables[k + 1]);
    SyncMirrorsLog(cx, tables[k], steps[k].log, tables[k + 1]);
    assert IsMirrored(cx, tables[k + 1], c);
    o :| Owns(tables[k + 1], o, c.id) && tables[k + 1][o] == Mirror(cx, c);
    OrdinalsNeverChange(cx, steps, tables, k + 1, j, o, c.id);
  }
}
