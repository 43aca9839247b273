// Chat presence: read marker, unread count, typing rows and an explicit clock.
module Presence {
  import opened Common

  const U64_MAX: nat := 0xFFFF_FFFF_FFFF_FFFF
  const U32_MAX: nat := 0xFFFF_FFFF
  const MAX_PROJECTION_MESSAGES: nat := 10000

  function Saturate(n: nat): nat
  {
    if n > U64_MAX then U64_MAX else n
  }

  /******* Event order *******/

  // Byte-wise string order.
  predicate Less(a: string, b: string)
  {
    b != "" && (a == "" || a[0] < b[0] || (a[0] == b[0] && Less(a[1..], b[1..])))
  }

  lemma {:induction false} LessIsTransitive(a: string, b: string, c: string)
    requires Less(a, b) && Less(b, c)
    ensures Less(a, c)
  {
    if a != "" && a[0] == b[0] && b[0] == c[0] {
      LessIsTransitive(a[1..], b[1..], c[1..]);
    }
  }

  lemma {:induction false} LessIsTotal(a: string, b: string)
    ensures Less(a, b) || Less(b, a) || a == b
    ensures !(Less(a, b) && Less(b, a)) && !Less(a, a)
  {
    if a != "" {
      LessIsTotal(a[1..], if b == "" then "" else b[1..]);
      LessIsTotal(a[1..], a[1..]);
      if b != "" && a[0] == b[0] && a[1..] == b[1..] {
        assert a == [a[0]] + a[1..] && b == [b[0]] + b[1..];
      }
    }
  }

  // A position in the chat: creation time, ties broken by event id.
  datatype Cursor = Cursor(eventId: string, createdAt: nat)

  predicate After(a: Cursor, b: Cursor)
  {
    a.createdAt > b.createdAt || (a.createdAt == b.createdAt && Less(b.eventId, a.eventId))
  }

  // a comes first: a proper prefix of b, or smaller at the first difference.
  ghost predicate Sooner(a: string, b: string)
  {
    exists k :: DiffersAt(a, b, k)
  }

  ghost predicate DiffersAt(a: string, b: string, k: int)
  {
    0 <= k <= |a| && k < |b| && a[..k] == b[..k] && (k < |a| ==> a[k] < b[k])
  }

  lemma {:induction false} LessIsSooner(a: string, b: string)
    ensures Less(a, b) <==> Sooner(a, b)
  {
    if a != "" && b != "" {
      LessIsSooner(a[1..], b[1..]);
      forall k
        ensures k > 0 ==> (DiffersAt(a, b, k) <==> a[0] == b[0] && DiffersAt(a[1..], b[1..], k - 1))
      {
        TailDiffers(a, b, k);
      }
      if a[0] == b[0] && Sooner(a[1..], b[1..]) {
        var k :| DiffersAt(a[1..], b[1..], k);
        assert DiffersAt(a, b, k + 1);
      }
      if a[0] < b[0] {
        assert DiffersAt(a, b, 0);
      }
    } else if b != "" {
      assert DiffersAt(a, b, 0);
    }
  }

  lemma TailDiffers(a: string, b: string, k: int)
    requires a != "" && b != ""
    ensures k > 0 ==> (DiffersAt(a, b, k) <==> a[0] == b[0] && DiffersAt(a[1..], b[1..], k - 1))
  {
    if 0 < k <= |a| && k < |b| {
      assert a[..k] == [a[0]] + a[1..][..k - 1] && b[..k] == [b[0]] + b[1..][..k - 1];
      assert a[..k][0] == a[0] && a[..k][1..] == a[1..][..k - 1];
      assert b[..k][0] == b[0] && b[..k][1..] == b[1..][..k - 1];
    }
  }

  // The greater time, and at equal times the greater id.
  ghost predicate Later(a: Cursor, b: Cursor)
  {
    b.createdAt < a.createdAt || (b.createdAt == a.createdAt && Sooner(b.eventId, a.eventId))
  }

  lemma AfterIsLater(a: Cursor, b: Cursor)
    ensures After(a, b) <==> Later(a, b)
  {
    LessIsSooner(b.eventId, a.eventId);
  }

  lemma AfterIsTransitive(a: Cursor, b: Cursor, c: Cursor)
    requires After(a, b) && After(b, c)
    ensures After(a, c)
  {
    if a.createdAt == b.createdAt == c.createdAt {
      LessIsTransitive(c.eventId, b.eventId, a.eventId);
    }
  }

  lemma AfterIsTotal(a: Cursor, b: Cursor)
    ensures After(a, b) || After(b, a) || a == b
    ensures !(After(a, b) && After(b, a)) && !After(a, a)
    ensures After(a, b) <==> Later(a, b)
  {
    LessIsTotal(a.eventId, b.eventId);
    LessIsTotal(a.eventId, a.eventId);
    AfterIsLater(a, b);
  }

  /******* Bounded message map: insertion order, oldest evicted first *******/

  datatype Message = Message(id: string, author: string, createdAt: nat)

  function Position(messages: seq<Message>, id: string): (at: Option<nat>)
    ensures at.Some? ==> at.value < |messages| && messages[at.value].id == id
    ensures at.None? ==> forall i :: 0 <= i < |messages| ==> messages[i].id != id
  {
    if messages == [] then None
    else if messages[|messages| - 1].id == id then Some(|messages| - 1)
    else Position(messages[..|messages| - 1], id)
  }

  // Re-inserting a key updates it in place; a new key at capacity evicts the
  // front.
  function BoundedInsert(messages: seq<Message>, row: Message): seq<Message>
  {
    var at := Position(messages, row.id);
    if at.Some? then messages[at.value := row]
    else (if |messages| >= MAX_PROJECTION_MESSAGES then messages[1..] else messages) + [row]
  }

  ghost predicate DistinctIds(messages: seq<Message>)
  {
    forall i, j :: 0 <= i < j < |messages| ==> messages[i].id != messages[j].id
  }

  // An insertion, slot by slot: a known id keeps its place; a new one goes last,
  // and at capacity the oldest row makes room for it.
  lemma InsertBySlot(messages: seq<Message>, row: Message)
    requires DistinctIds(messages)
    ensures var after := BoundedInsert(messages, row);
            && (forall at :: 0 <= at < |messages| && messages[at].id == row.id ==> after == messages[..at] + [row] + messages[at + 1..])
            && ((forall i :: 0 <= i < |messages| ==> messages[i].id != row.id) ==>
                  after == messages[if |messages| >= 10000 then 1 else 0..] + [row])
  {
    var at := Position(messages, row.id);
    if at.Some? {
      assert messages[at.value := row] == messages[..at.value] + [row] + messages[at.value + 1..];
    } else {
      assert messages[0..] == messages;
    }
  }

  lemma InsertIsBounded(messages: seq<Message>, row: Message)
    requires DistinctIds(messages) && |messages| <= MAX_PROJECTION_MESSAGES
    ensures DistinctIds(BoundedInsert(messages, row)) && |BoundedInsert(messages, row)| <= MAX_PROJECTION_MESSAGES
    ensures row in BoundedInsert(messages, row)
    ensures forall m :: m in BoundedInsert(messages, row) ==> m == row || m in messages
  {
    var after := BoundedInsert(messages, row);
    var at := Position(messages, row.id);
    if at.Some? {
      assert after[at.value] == row;
    } else {
      assert after[|after| - 1] == row;
    }
  }

  /******* Typing *******/

  datatype Typing = Typing(pubkey: string, updatedAtMs: nat, expiresAtMs: nat)

  datatype TypingUpdate = TypingUpdate(pubkey: string, isTyping: bool, updatedAtMs: nat, expiresAtMs: nat)

  datatype KernelEvent = KernelEvent(id: string, author: string, kind: nat, createdAt: nat, tags: seq<seq<string>>)

  datatype Scope = Scope(groupId: string, activePubkey: string, messageKinds: seq<nat>, typingKinds: seq<nat>, ttlMs: nat)

  // The first `h` tag that carries a value.
  function GroupTag(tags: seq<seq<string>>): Option<string>
  {
    if tags == [] then None
    else if |tags[0]| >= 2 && tags[0][0] == "h" then Some(tags[0][1])
    else GroupTag(tags[1..])
  }

  // The first `typing` tag with a value that is understood.
  function TypingState(tags: seq<seq<string>>): Option<bool>
  {
    if tags == [] then None
    else if |tags[0]| >= 2 && tags[0][0] == "typing" && tags[0][1] == "started" then Some(true)
    else if |tags[0]| >= 2 && tags[0][0] == "typing" && tags[0][1] == "stopped" then Some(false)
    else TypingState(tags[1..])
  }

  function UpdateFromEvent(scope: Scope, e: KernelEvent): Option<TypingUpdate>
  {
    var isTyping := TypingState(e.tags);
    if e.kind !in scope.typingKinds || isTyping.None? then None
    else
      var at := Saturate(e.createdAt * 1000);
      Some(TypingUpdate(e.author, isTyping.value, at, if isTyping.value then Saturate(at + scope.ttlMs) else at))
  }

  predicate SameGroup(scope: Scope, e: KernelEvent)
  {
    GroupTag(e.tags) == Some(scope.groupId)
  }

  predicate AcceptsMessage(scope: Scope, e: KernelEvent)
  {
    && SameGroup(scope, e)
    && e.kind !in scope.typingKinds
    && (scope.messageKinds == [] || e.kind in scope.messageKinds)
  }

  /******* State machine *******/

  datatype State = State(messages: seq<Message>, readMarker: Option<Cursor>, typing: map<string, Typing>, nowMs: nat)

  const START: State := State([], None, map[], 0)

  datatype Input =
    | MarkRead(marker: Cursor)
    | ApplyTyping(update: TypingUpdate)
    | AdvanceClock(nowMs: nat)
    | Observe(event: KernelEvent)

  function Max(a: nat, b: nat): nat
  {
    if a > b then a else b
  }

  function Prune(typing: map<string, Typing>, nowMs: nat): map<string, Typing>
  {
    map k | k in typing && typing[k].expiresAtMs > nowMs :: typing[k]
  }

  function Marked(st: State, marker: Cursor): State
  {
    if st.readMarker.Some? && !After(marker, st.readMarker.value) then st else st.(readMarker := Some(marker))
  }

  function Clocked(st: State, nowMs: nat): State
  {
    var now := Max(st.nowMs, nowMs);
    st.(nowMs := now, typing := Prune(st.typing, now))
  }

  function Typed(scope: Scope, st: State, u: TypingUpdate): State
  {
    var st' := Clocked(st, u.updatedAtMs);
    if u.pubkey == "" || u.pubkey == scope.activePubkey then st'
    else if u.isTyping && u.expiresAtMs > st'.nowMs
    then st'.(typing := st'.typing[u.pubkey := Typing(u.pubkey, u.updatedAtMs, u.expiresAtMs)])
    else st'.(typing := st'.typing - {u.pubkey})
  }

  function Observed(scope: Scope, st: State, e: KernelEvent): State
  {
    if !SameGroup(scope, e) then st
    else
      var update := UpdateFromEvent(scope, e);
      if update.Some? then Typed(scope, st, update.value)
      else if !AcceptsMessage(scope, e) then st
      else st.(messages := BoundedInsert(st.messages, Message(e.id, e.author, e.createdAt)))
  }

  function Step(scope: Scope, st: State, input: Input): State
  {
    match input
    case MarkRead(marker) => Marked(st, marker)
    case ApplyTyping(u) => Typed(scope, st, u)
    case AdvanceClock(now) => Clocked(st, now)
    case Observe(e) => Observed(scope, st, e)
  }

  function Run(scope: Scope, inputs: seq<Input>): State
  {
    if inputs == [] then START else Step(scope, Run(scope, inputs[..|inputs| - 1]), inputs[|inputs| - 1])
  }

  /******* Unread count *******/

  predicate Unread(active: string, marker: Option<Cursor>, m: Message)
  {
    m.author != active && (marker.None? || After(Cursor(m.id, m.createdAt), marker.value))
  }

  // Another author's, at a later time than the marker or at its time with a
  // greater id; or no marker at all.
  ghost predicate UnreadRow(active: string, marker: Option<Cursor>, m: Message)
  {
    && m.author != active
    && (marker.Some? ==>
          || m.createdAt > marker.value.createdAt
          || (m.createdAt == marker.value.createdAt && Sooner(marker.value.eventId, m.id)))
  }

  lemma UnreadIsUnreadRow(active: string, marker: Option<Cursor>, m: Message)
    ensures Unread(active, marker, m) <==> UnreadRow(active, marker, m)
  {
    if marker.Some? {
      AfterIsLater(Cursor(m.id, m.createdAt), marker.value);
    }
  }

  function CountUnread(active: string, marker: Option<Cursor>, messages: seq<Message>): nat
  {
    if messages == [] then 0
    else
      CountUnread(active, marker, messages[..|messages| - 1])
      + (if Unread(active, marker, messages[|messages| - 1]) then 1 else 0)
  }

  // Where the unread rows are.
  ghost function UnreadAt(active: string, marker: Option<Cursor>, messages: seq<Message>): set<int>
  {
    set i | 0 <= i < |messages| && UnreadRow(active, marker, messages[i])
  }

  lemma UnreadAtStep(active: string, marker: Option<Cursor>, messages: seq<Message>)
    requires messages != []
    ensures var n, before := |messages| - 1, UnreadAt(active, marker, messages[..|messages| - 1]);
            && n !in before
            && UnreadAt(active, marker, messages) == before + (if UnreadRow(active, marker, messages[n]) then {n} else {})
  {
    var n, init := |messages| - 1, messages[..|messages| - 1];
    assert forall i :: 0 <= i < n ==> init[i] == messages[i];
  }

  lemma {:induction false} CountIsOfRows(active: string, marker: Option<Cursor>, messages: seq<Message>)
    ensures CountUnread(active, marker, messages) == |UnreadAt(active, marker, messages)|
  {
    if messages != [] {
      CountIsOfRows(active, marker, messages[..|messages| - 1]);
      UnreadIsUnreadRow(active, marker, messages[|messages| - 1]);
      UnreadAtStep(active, marker, messages);
    }
  }

  function UnreadCount(scope: Scope, st: State): nat
  {
    var count := CountUnread(scope.activePubkey, st.readMarker, st.messages);
    if count > U32_MAX then U32_MAX else count
  }

  lemma {:induction false} FewerUnread(active: string, old_: Option<Cursor>, marker: Cursor, messages: seq<Message>)
    requires old_.Some? ==> After(marker, old_.value)
    ensures CountUnread(active, Some(marker), messages) <= CountUnread(active, old_, messages)
  {
    if messages != [] {
      var last := messages[|messages| - 1];
      FewerUnread(active, old_, marker, messages[..|messages| - 1]);
      if old_.Some? && Unread(active, Some(marker), last) {
        AfterIsTransitive(Cursor(last.id, last.createdAt), marker, old_.value);
      }
    }
  }

  // Marking read never raises the unread count, and the message marked is read.
  lemma MarkReadNeverRaisesUnread(scope: Scope, st: State, marker: Cursor)
    ensures UnreadCount(scope, Marked(st, marker)) <= UnreadCount(scope, st)
    ensures forall m :: Unread(scope.activePubkey, Marked(st, marker).readMarker, m) ==> Cursor(m.id, m.createdAt) != marker
  {
    AfterIsTotal(marker, marker);
    if st.readMarker.None? || After(marker, st.readMarker.value) {
      FewerUnread(scope.activePubkey, st.readMarker, marker, st.messages);
    }
  }

  /******* The read marker over runs *******/

  ghost function Markers(inputs: seq<Input>): set<Cursor>
  {
    set i | i in inputs && i.MarkRead? :: i.marker
  }

  ghost predicate Latest(markers: set<Cursor>, c: Cursor)
  {
    c in markers && forall m :: m in markers ==> m == c || After(c, m)
  }

  lemma LatestIsUnique(markers: set<Cursor>, a: Cursor, b: Cursor)
    requires Latest(markers, a) && Latest(markers, b)
    ensures a == b
  {
    AfterIsTotal(a, b);
  }

  lemma StepMarker(scope: Scope, st: State, input: Input)
    ensures !input.MarkRead? ==> Step(scope, st, input).readMarker == st.readMarker
  {
  }

  lemma {:induction false} MarkerIsMaximal(scope: Scope, inputs: seq<Input>)
    ensures var marker := Run(scope, inputs).readMarker;
            if Markers(inputs) == {} then marker.None? else marker.Some? && Latest(Markers(inputs), marker.value)
  {
    if inputs != [] {
      var init, input := inputs[..|inputs| - 1], inputs[|inputs| - 1];
      MarkerIsMaximal(scope, init);
      StepMarker(scope, Run(scope, init), input);
      assert inputs == init + [input];
      assert Markers(inputs) == Markers(init) + (if input.MarkRead? then {input.marker} else {});
      if input.MarkRead? && Markers(init) != {} {
        var known := Run(scope, init).readMarker.value;
        AfterIsTotal(input.marker, known);
        forall m | m in Markers(init)
          ensures After(input.marker, known) ==> After(input.marker, m)
        {
          if After(input.marker, known) && m != known {
            AfterIsTransitive(input.marker, known, m);
          }
        }
      }
    }
  }

  // Supplied, at no earlier time than any other, and at equal times with the
  // greatest id.
  ghost predicate Newest(markers: set<Cursor>, c: Cursor)
  {
    && c in markers
    && forall m :: m in markers ==>
         && m.createdAt <= c.createdAt
         && (m.createdAt == c.createdAt ==> m.eventId == c.eventId || Sooner(m.eventId, c.eventId))
  }

  lemma LatestIsNewest(markers: set<Cursor>, c: Cursor)
    ensures Latest(markers, c) <==> Newest(markers, c)
  {
    forall m
      ensures After(c, m) <==> Later(c, m)
    {
      AfterIsLater(c, m);
    }
  }

  // Whatever else is interleaved, the marker is the newest of all supplied.
  lemma MarkerIsLatest(scope: Scope, inputs: seq<Input>)
    ensures var marker := Run(scope, inputs).readMarker;
            if Markers(inputs) == {} then marker.None? else marker.Some? && Newest(Markers(inputs), marker.value)
  {
    MarkerIsMaximal(scope, inputs);
    if Markers(inputs) != {} {
      LatestIsNewest(Markers(inputs), Run(scope, inputs).readMarker.value);
    }
  }

  lemma MarkerIgnoresOrder(scope: Scope, a: seq<Input>, b: seq<Input>)
    requires Markers(a) == Markers(b)
    ensures Run(scope, a).readMarker == Run(scope, b).readMarker
  {
    MarkerIsMaximal(scope, a);
    MarkerIsMaximal(scope, b);
    if Markers(a) != {} {
      LatestIsUnique(Markers(a), Run(scope, a).readMarker.value, Run(scope, b).readMarker.value);
    }
  }

  /******* Typing rows and messages over runs *******/

  ghost predicate TypingSound(scope: Scope, st: State)
  {
    forall k :: k in st.typing ==>
      && st.typing[k].pubkey == k && k != "" && k != scope.activePubkey
      && st.typing[k].expiresAtMs > st.nowMs
  }

  // The row of a delivered message event of the group.
  ghost predicate Delivered(scope: Scope, inputs: seq<Input>, m: Message)
  {
    exists i :: 0 <= i < |inputs| && inputs[i].Observe? && AcceptsMessage(scope, inputs[i].event)
                && m == Message(inputs[i].event.id, inputs[i].event.author, inputs[i].event.createdAt)
  }

  ghost predicate MessagesSound(scope: Scope, inputs: seq<Input>, messages: seq<Message>)
  {
    && DistinctIds(messages) && |messages| <= MAX_PROJECTION_MESSAGES
    && forall m :: m in messages ==> Delivered(scope, inputs, m)
  }

  lemma StepKeepsTypingSound(scope: Scope, st: State, input: Input)
    requires TypingSound(scope, st)
    ensures TypingSound(scope, Step(scope, st, input))
  {
  }

  lemma DeliveredStill(scope: Scope, inputs: seq<Input>, input: Input, m: Message)
    requires Delivered(scope, inputs, m)
    ensures Delivered(scope, inputs + [input], m)
  {
    var i :| 0 <= i < |inputs| && inputs[i].Observe? && AcceptsMessage(scope, inputs[i].event)
             && m == Message(inputs[i].event.id, inputs[i].event.author, inputs[i].event.createdAt);
    assert (inputs + [input])[i] == inputs[i];
  }

  lemma StepMessages(scope: Scope, st: State, input: Input)
    ensures var after := Step(scope, st, input).messages;
            after == st.messages ||
            (input.Observe? && AcceptsMessage(scope, input.event)
             && after == BoundedInsert(st.messages, Message(input.event.id, input.event.author, input.event.createdAt)))
  {
  }

  // In every reachable state the typing rows are live and never the active
  // user's, and only group messages of a non-typing kind are counted.
  lemma {:induction false} ReachableStatesAreSound(scope: Scope, inputs: seq<Input>)
    ensures TypingSound(scope, Run(scope, inputs))
    ensures MessagesSound(scope, inputs, Run(scope, inputs).messages)
  {
    if inputs != [] {
      var init, input := inputs[..|inputs| - 1], inputs[|inputs| - 1];
      ReachableStatesAreSound(scope, init);
      var st := Run(scope, init);
      StepKeepsTypingSound(scope, st, input);
      StepMessages(scope, st, input);
      assert inputs == init + [input];
      forall m | m in st.messages
        ensures Delivered(scope, inputs, m)
      {
        DeliveredStill(scope, init, input, m);
      }
      if input.Observe? {
        var row := Message(input.event.id, input.event.author, input.event.createdAt);
        InsertIsBounded(st.messages, row);
        assert inputs[|init|] == input;
        assert AcceptsMessage(scope, input.event) ==> Delivered(scope, inputs, row);
      }
    }
  }

  // A typing-kind event, understood or not, never changes what is counted.
  lemma TypingEventsAreNeverCounted(scope: Scope, st: State, e: KernelEvent)
    requires e.kind in scope.typingKinds
    ensures Observed(scope, st, e).messages == st.messages
    ensures UnreadCount(scope, Observed(scope, st, e)) == UnreadCount(scope, st)
  {
  }

  /******* State as a function of history *******/

  function Signal(scope: Scope, input: Input): Option<TypingUpdate>
  {
    match input
    case ApplyTyping(u) => Some(u)
    case Observe(e) => if SameGroup(scope, e) then UpdateFromEvent(scope, e) else None
    case _ => None
  }

  // The last typing signal of a user.
  function LastSignal(scope: Scope, inputs: seq<Input>, pubkey: string): Option<TypingUpdate>
  {
    if inputs == [] then None
    else
      var signal := Signal(scope, inputs[|inputs| - 1]);
      if signal.Some? && signal.value.pubkey == pubkey then signal
      else LastSignal(scope, inputs[..|inputs| - 1], pubkey)
  }

  // The latest time any input carried.
  function Clock(scope: Scope, inputs: seq<Input>): nat
  {
    if inputs == [] then 0
    else
      var input := inputs[|inputs| - 1];
      var signal := Signal(scope, input);
      Max(Clock(scope, inputs[..|inputs| - 1]),
          if input.AdvanceClock? then input.nowMs else if signal.Some? then signal.value.updatedAtMs else 0)
  }

  // The row a signal leaves at a given time, if any.
  function RowAt(scope: Scope, signal: Option<TypingUpdate>, nowMs: nat): Option<Typing>
  {
    if signal.None? then None
    else
      var u := signal.value;
      if u.pubkey == "" || u.pubkey == scope.activePubkey || !u.isTyping || u.expiresAtMs <= nowMs then None
      else Some(Typing(u.pubkey, u.updatedAtMs, u.expiresAtMs))
  }

  function TypingRow(typing: map<string, Typing>, pubkey: string): Option<Typing>
  {
    if pubkey in typing then Some(typing[pubkey]) else None
  }

  lemma TypedRow(scope: Scope, st: State, u: TypingUpdate, pubkey: string, last: Option<TypingUpdate>)
    requires TypingRow(st.typing, pubkey) == RowAt(scope, last, st.nowMs)
    requires last.Some? ==> last.value.pubkey == pubkey
    ensures var after := Typed(scope, st, u);
            && after.nowMs == Max(st.nowMs, u.updatedAtMs)
            && TypingRow(after.typing, pubkey) == RowAt(scope, if u.pubkey == pubkey then Some(u) else last, after.nowMs)
  {
  }

  lemma {:induction false} LastSignalIsOfUser(scope: Scope, inputs: seq<Input>, pubkey: string)
    ensures var last := LastSignal(scope, inputs, pubkey); last.Some? ==> last.value.pubkey == pubkey
  {
    if inputs != [] {
      LastSignalIsOfUser(scope, inputs[..|inputs| - 1], pubkey);
    }
  }

  lemma StepWithSignal(scope: Scope, st: State, input: Input)
    ensures var signal, after := Signal(scope, input), Step(scope, st, input);
            && (signal.Some? ==> after == Typed(scope, st, signal.value))
            && (signal.None? && !input.AdvanceClock? ==> after.nowMs == st.nowMs && after.typing == st.typing)
  {
  }

  /******* Events on their fields *******/

  // The first tag that carries a value under a name.
  ghost predicate FirstNamed(tags: seq<seq<string>>, name: string, i: int)
  {
    && 0 <= i < |tags| && |tags[i]| >= 2 && tags[i][0] == name
    && forall j :: 0 <= j < i ==> !(|tags[j]| >= 2 && tags[j][0] == name)
  }

  ghost predicate InGroup(scope: Scope, e: KernelEvent)
  {
    exists i :: FirstNamed(e.tags, "h", i) && e.tags[i][1] == scope.groupId
  }

  lemma {:induction false} GroupTagIsFirst(tags: seq<seq<string>>, value: string)
    ensures GroupTag(tags) == Some(value) <==> exists i :: FirstNamed(tags, "h", i) && tags[i][1] == value
  {
    if tags != [] {
      GroupTagIsFirst(tags[1..], value);
      forall i
        ensures i > 0 && !(|tags[0]| >= 2 && tags[0][0] == "h") ==> (FirstNamed(tags, "h", i) <==> FirstNamed(tags[1..], "h", i - 1))
      {
        FirstInTail(tags, "h", i);
      }
      if |tags[0]| >= 2 && tags[0][0] == "h" {
        assert FirstNamed(tags, "h", 0);
      } else if GroupTag(tags[1..]) == Some(value) {
        var i :| FirstNamed(tags[1..], "h", i) && tags[1..][i][1] == value;
        assert FirstNamed(tags, "h", i + 1);
      }
    }
  }

  lemma FirstInTail(tags: seq<seq<string>>, name: string, i: int)
    requires tags != []
    ensures i > 0 && !(|tags[0]| >= 2 && tags[0][0] == name) ==> (FirstNamed(tags, name, i) <==> FirstNamed(tags[1..], name, i - 1))
  {
    if FirstNamed(tags[1..], name, i - 1) && i > 0 {
      assert forall j :: 1 <= j < i ==> tags[j] == tags[1..][j - 1];
    }
    if FirstNamed(tags, name, i) && i > 0 {
      assert forall j :: 0 <= j < i - 1 ==> tags[1..][j] == tags[j + 1];
    }
  }

  // A typing tag with one of the two understood values.
  ghost predicate Understood(tag: seq<string>)
  {
    |tag| >= 2 && tag[0] == "typing" && (tag[1] == "started" || tag[1] == "stopped")
  }

  ghost predicate FirstUnderstood(tags: seq<seq<string>>, i: int)
  {
    0 <= i < |tags| && Understood(tags[i]) && forall j :: 0 <= j < i ==> !Understood(tags[j])
  }

  lemma {:induction false} TypingStateIsFirst(tags: seq<seq<string>>) returns (i: int)
    ensures TypingState(tags).None? <==> forall j :: 0 <= j < |tags| ==> !Understood(tags[j])
    ensures TypingState(tags).Some? ==> FirstUnderstood(tags, i) && TypingState(tags).value == (tags[i][1] == "started")
  {
    i := 0;
    if tags != [] && !Understood(tags[0]) {
      i := TypingStateIsFirst(tags[1..]);
      assert forall j :: 1 <= j < |tags| ==> tags[j] == tags[1..][j - 1];
      i := i + 1;
    }
  }

  ghost function Capped(n: nat): nat
  {
    if n <= 18446744073709551615 then n else 18446744073709551615
  }

  // The signal an event carries, field by field.
  ghost predicate Signals(scope: Scope, e: KernelEvent, u: TypingUpdate)
  {
    && e.kind in scope.typingKinds && u.pubkey == e.author && u.updatedAtMs == Capped(e.createdAt * 1000)
    && (exists i :: FirstUnderstood(e.tags, i) && u.isTyping == (e.tags[i][1] == "started"))
    && u.expiresAtMs == if u.isTyping then Capped(u.updatedAtMs + scope.ttlMs) else u.updatedAtMs
  }

  // An event signals typing exactly when it is of the group and a typing kind with
  // an understood tag, and then just what that tag, its time and the ttl say.
  lemma SignalOnFields(scope: Scope, e: KernelEvent)
    ensures var signal := Signal(scope, Observe(e));
            && (signal.Some? <==> InGroup(scope, e) && e.kind in scope.typingKinds && exists i :: 0 <= i < |e.tags| && Understood(e.tags[i]))
            && (signal.Some? ==> Signals(scope, e, signal.value))
  {
    GroupTagIsFirst(e.tags, scope.groupId);
    var i := TypingStateIsFirst(e.tags);
  }

  // An event is stored as a message exactly when it is of the group, not of a typing
  // kind, and of a message kind if any are named.
  lemma MessageOnFields(scope: Scope, e: KernelEvent)
    ensures var row := RowOf(scope, Observe(e));
            && (row.Some? <==> InGroup(scope, e) && e.kind !in scope.typingKinds && (scope.messageKinds == [] || e.kind in scope.messageKinds))
            && (row.Some? ==> row.value.id == e.id && row.value.author == e.author && row.value.createdAt == e.createdAt)
  {
    GroupTagIsFirst(e.tags, scope.groupId);
  }

  // The time an input carries.
  ghost predicate CarriesTime(scope: Scope, input: Input, time: nat)
  {
    input == AdvanceClock(time) || (Signal(scope, input).Some? && Signal(scope, input).value.updatedAtMs == time)
  }

  // The clock has seen every time carried so far and shows one of them.
  lemma {:induction false} ClockIsLatestTime(scope: Scope, inputs: seq<Input>)
    ensures forall i, time: nat :: 0 <= i < |inputs| && CarriesTime(scope, inputs[i], time) ==> time <= Clock(scope, inputs)
    ensures Clock(scope, inputs) == 0 || exists i :: 0 <= i < |inputs| && CarriesTime(scope, inputs[i], Clock(scope, inputs))
  {
    if inputs != [] {
      var n, init := |inputs| - 1, inputs[..|inputs| - 1];
      ClockIsLatestTime(scope, init);
      assert forall i :: 0 <= i < n ==> init[i] == inputs[i];
      if Clock(scope, inputs) == Clock(scope, init) && Clock(scope, init) != 0 {
        var i :| 0 <= i < n && CarriesTime(scope, init[i], Clock(scope, init));
        assert CarriesTime(scope, inputs[i], Clock(scope, inputs));
      } else if Clock(scope, inputs) != 0 {
        assert CarriesTime(scope, inputs[n], Clock(scope, inputs));
      }
    }
  }

  /******* Typing and messages over runs *******/

  // Over every interleaving the clock is the latest time seen, and a user has a
  // typing row exactly when their last signal said so and has not expired.
  lemma {:induction false} TypingFollowsLastSignal(scope: Scope, inputs: seq<Input>, pubkey: string)
    ensures var st := Run(scope, inputs);
            && st.nowMs == Clock(scope, inputs)
            && TypingRow(st.typing, pubkey) == RowAt(scope, LastSignal(scope, inputs, pubkey), st.nowMs)
  {
    if inputs != [] {
      var init, input := inputs[..|inputs| - 1], inputs[|inputs| - 1];
      var st, signal := Run(scope, init), Signal(scope, input);
      TypingFollowsLastSignal(scope, init, pubkey);
      LastSignalIsOfUser(scope, init, pubkey);
      StepWithSignal(scope, st, input);
      if signal.Some? {
        TypedRow(scope, st, signal.value, pubkey, LastSignal(scope, init, pubkey));
      }
    }
  }

  function RowOf(scope: Scope, input: Input): Option<Message>
  {
    if input.Observe? && AcceptsMessage(scope, input.event)
    then Some(Message(input.event.id, input.event.author, input.event.createdAt)) else None
  }

  // The last message delivered under an id.
  function LastRow(scope: Scope, inputs: seq<Input>, id: string): Option<Message>
  {
    if inputs == [] then None
    else
      var row := RowOf(scope, inputs[|inputs| - 1]);
      if row.Some? && row.value.id == id then row else LastRow(scope, inputs[..|inputs| - 1], id)
  }

  ghost function DeliveredIds(scope: Scope, inputs: seq<Input>): (ids: set<string>)
    ensures forall id :: id in ids <==> LastRow(scope, inputs, id).Some?
  {
    if inputs == [] then {}
    else
      var row := RowOf(scope, inputs[|inputs| - 1]);
      DeliveredIds(scope, inputs[..|inputs| - 1]) + (if row.Some? then {row.value.id} else {})
  }

  function Stored(messages: seq<Message>, id: string): Option<Message>
  {
    var at := Position(messages, id);
    if at.Some? then Some(messages[at.value]) else None
  }

  lemma StoredRow(messages: seq<Message>, i: nat)
    requires DistinctIds(messages) && i < |messages|
    ensures Stored(messages, messages[i].id) == Some(messages[i])
  {
    var at := Position(messages, messages[i].id);
    assert at.Some?;
  }

  // One slot changed or added holds the new row, the others what they held.
  lemma SlotsStore(messages: seq<Message>, after: seq<Message>, here: nat, row: Message, id: string)
    requires DistinctIds(after) && |messages| <= |after| && here < |after| && after[here] == row
    requires forall i :: 0 <= i < |after| && i != here ==> i < |messages| && after[i] == messages[i]
    requires here < |messages| ==> messages[here].id == row.id
    ensures Stored(after, id) == if id == row.id then Some(row) else Stored(messages, id)
  {
    if id == row.id {
      StoredRow(after, here);
    } else {
      var at := Position(messages, id);
      if at.Some? {
        StoredRow(after, at.value);
      }
    }
  }

  lemma InsertSlots(messages: seq<Message>, row: Message) returns (here: nat)
    requires Position(messages, row.id).Some? || |messages| < MAX_PROJECTION_MESSAGES
    ensures var after := BoundedInsert(messages, row);
            && |messages| <= |after| && here < |after| && after[here] == row
            && (forall i :: 0 <= i < |after| && i != here ==> i < |messages| && after[i] == messages[i])
            && (here < |messages| ==> messages[here].id == row.id)
  {
    var at := Position(messages, row.id);
    here := if at.Some? then at.value else |messages|;
  }

  lemma InsertStores(messages: seq<Message>, row: Message, id: string)
    requires DistinctIds(messages) && |messages| <= MAX_PROJECTION_MESSAGES
    requires Position(messages, row.id).Some? || |messages| < MAX_PROJECTION_MESSAGES
    ensures Stored(BoundedInsert(messages, row), id) == if id == row.id then Some(row) else Stored(messages, id)
  {
    InsertIsBounded(messages, row);
    var here := InsertSlots(messages, row);
    SlotsStore(messages, BoundedInsert(messages, row), here, row, id);
  }

  ghost function Ids(messages: seq<Message>): (ids: set<string>)
    ensures forall id :: id in ids <==> Stored(messages, id).Some?
  {
    set i | 0 <= i < |messages| :: messages[i].id
  }

  lemma {:induction false} AsManyIds(messages: seq<Message>)
    requires DistinctIds(messages)
    ensures |Ids(messages)| == |messages|
  {
    if messages != [] {
      var init, last := messages[..|messages| - 1], messages[|messages| - 1];
      AsManyIds(init);
      assert messages == init + [last];
      forall id
        ensures id in Ids(messages) <==> id in Ids(init) || id == last.id
      {
        assert Position(messages, id) == if last.id == id then Some(|init|) else Position(init, id);
      }
      assert Ids(messages) == Ids(init) + {last.id};
      assert last.id !in Ids(init);
    }
  }

  lemma {:induction false} SmallerSet(a: set<string>, b: set<string>)
    requires a <= b
    ensures |a| <= |b|
  {
    if a != {} {
      var x :| x in a;
      SmallerSet(a - {x}, b - {x});
    }
  }

  // The stored messages are the last row of every delivered id.
  ghost predicate ForgetsNothing(scope: Scope, inputs: seq<Input>)
  {
    forall id :: Stored(Run(scope, inputs).messages, id) == LastRow(scope, inputs, id)
  }

  lemma {:induction false} FittingMessagesAreKept(scope: Scope, inputs: seq<Input>)
    requires |DeliveredIds(scope, inputs)| <= MAX_PROJECTION_MESSAGES
    ensures ForgetsNothing(scope, inputs)
  {
    if inputs != [] {
      var init, input := inputs[..|inputs| - 1], inputs[|inputs| - 1];
      var messages, row := Run(scope, init).messages, RowOf(scope, input);
      var before, after := DeliveredIds(scope, init), DeliveredIds(scope, inputs);
      SmallerSet(before, after);
      FittingMessagesAreKept(scope, init);
      StepMessageRow(scope, Run(scope, init), input);
      if row.Some? {
        ReachableStatesAreSound(scope, init);
        RoomForNew(messages, row.value.id, before, after);
        forall id
          ensures Stored(BoundedInsert(messages, row.value), id) == LastRow(scope, inputs, id)
        {
          InsertStores(messages, row.value, id);
        }
      }
    }
  }

  lemma StepMessageRow(scope: Scope, st: State, input: Input)
    ensures var row := RowOf(scope, input);
            Step(scope, st, input).messages == if row.Some? then BoundedInsert(st.messages, row.value) else st.messages
  {
  }

  lemma RoomForNew(messages: seq<Message>, id: string, before: set<string>, after: set<string>)
    requires DistinctIds(messages) && forall x :: x in Ids(messages) <==> x in before
    requires after == before + {id} && |after| <= MAX_PROJECTION_MESSAGES
    ensures Position(messages, id).Some? || |messages| < MAX_PROJECTION_MESSAGES
  {
    AsManyIds(messages);
    assert Ids(messages) == before;
    if id !in before {
      assert |after| == |before| + 1;
    }
  }

  lemma RememberedIdsFit(scope: Scope, inputs: seq<Input>)
    requires ForgetsNothing(scope, inputs)
    ensures |DeliveredIds(scope, inputs)| <= MAX_PROJECTION_MESSAGES
  {
    var messages := Run(scope, inputs).messages;
    ReachableStatesAreSound(scope, inputs);
    AsManyIds(messages);
    assert DeliveredIds(scope, inputs) == Ids(messages);
  }

  // The bounded store forgets nothing exactly as long as the ids fit.
  lemma NothingIsForgottenIffIdsFit(scope: Scope, inputs: seq<Input>)
    ensures ForgetsNothing(scope, inputs) <==> |DeliveredIds(scope, inputs)| <= 10000
  {
    if ForgetsNothing(scope, inputs) {
      RememberedIdsFit(scope, inputs);
    } else if |DeliveredIds(scope, inputs)| <= MAX_PROJECTION_MESSAGES {
      FittingMessagesAreKept(scope, inputs);
    }
  }

  // The ids of the unread among some messages.
  ghost function UnreadOf(active: string, marker: Option<Cursor>, messages: seq<Message>): set<string>
  {
    if messages == [] then {}
    else
      var last := messages[|messages| - 1];
      UnreadOf(active, marker, messages[..|messages| - 1]) + (if Unread(active, marker, last) then {last.id} else {})
  }

  lemma {:induction false} UnreadIdIsOfMessage(active: string, marker: Option<Cursor>, messages: seq<Message>, id: string)
    ensures id in UnreadOf(active, marker, messages)
       <==> exists i :: 0 <= i < |messages| && messages[i].id == id && Unread(active, marker, messages[i])
  {
    if messages != [] {
      var init, last := messages[..|messages| - 1], messages[|messages| - 1];
      UnreadIdIsOfMessage(active, marker, init, id);
      assert messages == init + [last];
      if i :| 0 <= i < |init| && init[i].id == id && Unread(active, marker, init[i]) {
        assert messages[i].id == id && Unread(active, marker, messages[i]);
      }
    }
  }

  lemma NewIdIsNotUnread(active: string, marker: Option<Cursor>, messages: seq<Message>)
    requires messages != [] && DistinctIds(messages)
    ensures DistinctIds(messages[..|messages| - 1])
    ensures messages[|messages| - 1].id !in UnreadOf(active, marker, messages[..|messages| - 1])
  {
    UnreadIdIsOfMessage(active, marker, messages[..|messages| - 1], messages[|messages| - 1].id);
  }

  lemma {:induction false} CountIsOfIds(active: string, marker: Option<Cursor>, messages: seq<Message>)
    requires DistinctIds(messages)
    ensures CountUnread(active, marker, messages) == |UnreadOf(active, marker, messages)|
  {
    if messages != [] {
      NewIdIsNotUnread(active, marker, messages);
      CountIsOfIds(active, marker, messages[..|messages| - 1]);
    }
  }

  // The delivered ids whose last row is another author's and after the marker.
  ghost function UnreadDelivered(scope: Scope, inputs: seq<Input>, marker: Option<Cursor>): set<string>
  {
    set id | id in DeliveredIds(scope, inputs)
             && UnreadRow(scope.activePubkey, marker, LastRow(scope, inputs, id).value)
  }

  lemma UnreadStoredIsDelivered(scope: Scope, inputs: seq<Input>, marker: Option<Cursor>)
    requires ForgetsNothing(scope, inputs)
    ensures UnreadOf(scope.activePubkey, marker, Run(scope, inputs).messages) == UnreadDelivered(scope, inputs, marker)
  {
    var active, messages := scope.activePubkey, Run(scope, inputs).messages;
    ReachableStatesAreSound(scope, inputs);
    forall i | 0 <= i < |messages|
      ensures LastRow(scope, inputs, messages[i].id) == Some(messages[i])
    {
      StoredRow(messages, i);
    }
    forall id
      ensures id in UnreadOf(active, marker, messages) <==> id in UnreadDelivered(scope, inputs, marker)
    {
      UnreadIdIsOfMessage(active, marker, messages, id);
      assert Stored(messages, id) == LastRow(scope, inputs, id);
      if LastRow(scope, inputs, id).Some? {
        UnreadIsUnreadRow(active, marker, LastRow(scope, inputs, id).value);
      }
      if id in UnreadDelivered(scope, inputs, marker) {
        var at := Position(messages, id);
        assert messages[at.value] == LastRow(scope, inputs, id).value;
      }
    }
  }

  // As long as the ids fit, the unread count is the number of delivered ids whose
  // last row is another author's and after the latest marker supplied.
  lemma UnreadFollowsHistory(scope: Scope, inputs: seq<Input>, marker: Option<Cursor>)
    requires |DeliveredIds(scope, inputs)| <= MAX_PROJECTION_MESSAGES
    requires if Markers(inputs) == {} then marker.None? else marker.Some? && Newest(Markers(inputs), marker.value)
    ensures UnreadCount(scope, Run(scope, inputs)) == |UnreadDelivered(scope, inputs, marker)|
  {
    var st := Run(scope, inputs);
    MarkerIsMaximal(scope, inputs);
    if marker.Some? {
      LatestIsNewest(Markers(inputs), marker.value);
      LatestIsUnique(Markers(inputs), marker.value, st.readMarker.value);
    }
    FittingMessagesAreKept(scope, inputs);
    ReachableStatesAreSound(scope, inputs);
    UnreadStoredIsDelivered(scope, inputs, marker);
    CountIsOfIds(scope.activePubkey, marker, st.messages);
    SmallerSet(UnreadDelivered(scope, inputs, marker), DeliveredIds(scope, inputs));
  }

  /******* Kind lists: sorted, without duplicates, searched by halving *******/

  ghost predicate StrictlySorted(kinds: seq<nat>)
  {
    forall i, j :: 0 <= i < j < |kinds| ==> kinds[i] < kinds[j]
  }

  function InsertKind(kinds: seq<nat>, kind: nat): seq<nat>
  {
    if kinds == [] || kinds[|kinds| - 1] < kind then kinds + [kind]
    else if kinds[|kinds| - 1] == kind then kinds
    else InsertKind(kinds[..|kinds| - 1], kind) + [kinds[|kinds| - 1]]
  }

  function SortDedup(kinds: seq<nat>): seq<nat>
  {
    if kinds == [] then [] else InsertKind(SortDedup(kinds[..|kinds| - 1]), kinds[|kinds| - 1])
  }

  lemma {:induction false} InsertKindSorts(kinds: seq<nat>, kind: nat)
    requires StrictlySorted(kinds)
    ensures StrictlySorted(InsertKind(kinds, kind))
    ensures forall k :: k in InsertKind(kinds, kind) <==> k in kinds || k == kind
  {
    if kinds != [] {
      var init, last := kinds[..|kinds| - 1], kinds[|kinds| - 1];
      assert kinds == init + [last];
      if kind < last {
        InsertKindSorts(init, kind);
        var rest := InsertKind(init, kind);
        forall i | 0 <= i < |rest|
          ensures rest[i] < last
        {
          assert rest[i] in rest;
        }
      }
    }
  }

  lemma {:induction false} SortDedupKeepsKinds(kinds: seq<nat>)
    ensures StrictlySorted(SortDedup(kinds))
    ensures forall k :: k in SortDedup(kinds) <==> k in kinds
  {
    if kinds != [] {
      var init, last := kinds[..|kinds| - 1], kinds[|kinds| - 1];
      SortDedupKeepsKinds(init);
      InsertKindSorts(SortDedup(init), last);
      assert kinds == init + [last];
    }
  }

  // The kinds one subscription asks for; no message kinds means all kinds.
  function CombinedKinds(messageKinds: seq<nat>, typingKinds: seq<nat>): seq<nat>
  {
    if messageKinds == [] then [] else SortDedup(messageKinds + typingKinds)
  }

  // The subscription delivers a group event exactly when the projection could
  // use it as a message or as a typing signal.
  lemma SubscriptionMatchesProjection(scope: Scope, messageKinds: seq<nat>, typingKinds: seq<nat>, kind: nat)
    requires scope.messageKinds == SortDedup(messageKinds) && scope.typingKinds == SortDedup(typingKinds)
    ensures CombinedKinds(messageKinds, typingKinds) == [] || kind in CombinedKinds(messageKinds, typingKinds)
       <==> scope.messageKinds == [] || kind in scope.messageKinds || kind in scope.typingKinds
  {
    SortDedupKeepsKinds(messageKinds);
    SortDedupKeepsKinds(typingKinds);
    SortDedupKeepsKinds(messageKinds + typingKinds);
    if messageKinds != [] {
      assert messageKinds[0] in messageKinds && messageKinds[0] in messageKinds + typingKinds;
      assert messageKinds[0] in SortDedup(messageKinds) && messageKinds[0] in SortDedup(messageKinds + typingKinds);
    }
  }

  method ContainsKind(kinds: seq<nat>, kind: nat) returns (found: bool)
    requires StrictlySorted(kinds)
    ensures found <==> kind in kinds
  {
    var low, high := 0, |kinds|;
    while low < high
      invariant 0 <= low <= high <= |kinds|
      invariant forall i :: 0 <= i < |kinds| && kinds[i] == kind ==> low <= i < high
    {
      var mid := (low + high) / 2;
      if kinds[mid] == kind {
        return true;
      } else if kinds[mid] < kind {
        low := mid + 1;
      } else {
        high := mid;
      }
    }
    return false;
  }

  /******* The projection *******/

  class ChatPresenceProjection {
    const scope: Scope
    var messages: seq<Message>
    var readMarker: Option<Cursor>
    var typing: map<string, Typing>
    var nowMs: nat

    function Value(): State
      reads this
    {
      State(messages, readMarker, typing, nowMs)
    }

    // The kind list is in the order its binary search relies on.
    ghost predicate Wired()
    {
      StrictlySorted(scope.typingKinds)
    }

    constructor (groupId: string, activePubkey: string, messageKinds: seq<nat>, typingKinds: seq<nat>, ttlMs: nat)
      ensures scope == Scope(groupId, activePubkey, SortDedup(messageKinds), SortDedup(typingKinds), ttlMs)
      ensures Value() == START && Wired()
    {
      SortDedupKeepsKinds(typingKinds);
      scope := Scope(groupId, activePubkey, SortDedup(messageKinds), SortDedup(typingKinds), ttlMs);
      messages, readMarker, typing, nowMs := [], None, map[], 0;
    }

    method MarkReadAt(marker: Cursor) returns (changed: bool)
      modifies this
      ensures Value() == Marked(old(Value()), marker)
      ensures changed <==> old(readMarker).None? || Later(marker, old(readMarker).value)
    {
      if readMarker.Some? {
        AfterIsLater(marker, readMarker.value);
      }
      if readMarker.Some? && !After(marker, readMarker.value) {
        return false;
      }
      readMarker := Some(marker);
      return true;
    }

    method AdvanceTo(now: nat) returns (pruned: bool)
      modifies this
      ensures Value() == Clocked(old(Value()), now)
      ensures pruned <==> |typing| != |old(typing)|
    {
      if now > nowMs {
        nowMs := now;
      }
      var before := |typing|;
      typing := map k | k in typing && typing[k].expiresAtMs > nowMs :: typing[k];
      return before != |typing|;
    }

    method ApplyUpdate(update: TypingUpdate) returns (changed: bool)
      modifies this
      ensures Value() == Typed(scope, old(Value()), update)
      ensures changed <==>
          && update.pubkey != "" && update.pubkey != scope.activePubkey
          && ((update.isTyping && update.expiresAtMs > nowMs)
              || update.pubkey in Clocked(old(Value()), update.updatedAtMs).typing)
    {
      var pruned := AdvanceTo(update.updatedAtMs);
      if update.pubkey == "" || update.pubkey == scope.activePubkey {
        return false;
      }
      if update.isTyping && update.expiresAtMs > nowMs {
        typing := typing[update.pubkey := Typing(update.pubkey, update.updatedAtMs, update.expiresAtMs)];
        return true;
      }
      changed := update.pubkey in typing;
      typing := typing - {update.pubkey};
    }

    method OnKernelEvent(event: KernelEvent)
      requires Wired()
      modifies this
      ensures Value() == Observed(scope, old(Value()), event)
    {
      if GroupTag(event.tags) != Some(scope.groupId) {
        return;
      }
      var isTypingKind := ContainsKind(scope.typingKinds, event.kind);
      var update := UpdateFromEvent(scope, event);
      if isTypingKind && update.Some? {
        var changed := ApplyUpdate(update.value);
        return;
      }
      if isTypingKind || (scope.messageKinds != [] && event.kind !in scope.messageKinds) {
        return;
      }
      messages := BoundedInsert(messages, Message(event.id, event.author, event.createdAt));
    }

    // The snapshot's unread count: a loop over the stored messages.
    method Unreads() returns (count: nat)
      ensures count == UnreadCount(scope, Value())
      ensures count == if |UnreadAt(scope.activePubkey, readMarker, messages)| <= 0xFFFF_FFFF
                       then |UnreadAt(scope.activePubkey, readMarker, messages)| else 0xFFFF_FFFF
    {
      CountIsOfRows(scope.activePubkey, readMarker, messages);
      count := 0;
      for i := 0 to |messages|
        invariant count == CountUnread(scope.activePubkey, readMarker, messages[..i])
      {
        assert messages[..i + 1][..i] == messages[..i];
        if messages[i].author != scope.activePubkey
           && (readMarker.None? || After(Cursor(messages[i].id, messages[i].createdAt), readMarker.value)) {
          count := count + 1;
        }
      }
      assert messages[..|messages|] == messages;
      if count > U32_MAX {
        count := U32_MAX;
      }
    }
  }
}
