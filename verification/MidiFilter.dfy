/**
 Filtering midi input: of the controller messages of one batch only the last of each kind, channel
 and number is kept.

 The filter walks a batch backwards with arrays of flags.  It is specified by what it keeps, and what
 is promised of it is proved about that: nothing is added or reordered, notes and program changes all
 survive, the receiver ends up with the same controller state, and filtering batches before filtering
 them together makes no difference.
 */
module MidiFilter {
  import opened Paths

  type Message = nat

  const CHANNELS := 16
  const NOTES := 128

  /** What a controller message sets. */
  datatype Key =
    | PolyPressure(channel: nat, note: nat)
    | ControlChange(channel: nat, number: nat)
    | ChannelPressure(channel: nat)
    | PitchBend(channel: nat)

  function Status(m: Message): nat { m / 16 % 16 }
  function Channel(m: Message): (c: nat)
    ensures c < CHANNELS
  {
    m % 16
  }
  function Value1(m: Message): nat { m / 256 % 256 }
  function Value2(m: Message): nat { m / 65536 % 256 }

  /** A channel message whose data bytes are data bytes. */
  predicate IsLegal(m: Message) {
    8 <= Status(m) < 15 && Value1(m) < NOTES && Value2(m) < NOTES
  }

  /** What a message sets; notes and program changes set nothing that a later message replaces. */
  function KeyOf(m: Message): (k: Option<Key>)
    requires IsLegal(m)
    ensures k.Some? ==> InRange(k.value)
  {
    var status := Status(m);
    if status == 10 then Some(PolyPressure(Channel(m), Value1(m)))
    else if status == 11 then Some(ControlChange(Channel(m), Value1(m)))
    else if status == 13 then Some(ChannelPressure(Channel(m)))
    else if status == 14 then Some(PitchBend(Channel(m)))
    else None
  }

  predicate InRange(k: Key) {
    match k
    case PolyPressure(c, n) => c < CHANNELS && n < NOTES
    case ControlChange(c, n) => c < CHANNELS && n < NOTES
    case ChannelPressure(c) => c < CHANNELS
    case PitchBend(c) => c < CHANNELS
  }

  predicate Sets(m: Message, k: Key) {
    IsLegal(m) && KeyOf(m) == Some(k)
  }

  // ---------------------------------------------------------------- kinds of messages, by their bits

  predicate HasDataBytes(m: Message) {
    m / 256 % 256 < 128 && m / 65536 % 256 < 128
  }

  /** Note off, note on and program change. */
  predicate IsEvent(m: Message) {
    (m / 16 % 16 == 8 || m / 16 % 16 == 9 || m / 16 % 16 == 12) && HasDataBytes(m)
  }

  /** Polyphonic pressure, control change, channel pressure and pitch bend. */
  predicate IsControl(m: Message) {
    (m / 16 % 16 == 10 || m / 16 % 16 == 11 || m / 16 % 16 == 13 || m / 16 % 16 == 14) && HasDataBytes(m)
  }

  /** The one can take the other's place: same kind, same channel, and for the first two kinds same number. */
  predicate SameControl(a: Message, b: Message) {
    && IsControl(a) && IsControl(b) && a / 16 % 16 == b / 16 % 16 && a % 16 == b % 16
    && (a / 16 % 16 == 10 || a / 16 % 16 == 11 ==> a / 256 % 256 == b / 256 % 256)
  }

  /** What the keys are: legal messages are events and controls, events have none, and controls have the
      same exactly if they can take each other's place. */
  lemma KeysMean(a: Message, b: Message)
    ensures IsLegal(a) <==> IsEvent(a) || IsControl(a)
    ensures IsEvent(a) <==> IsLegal(a) && KeyOf(a).None?
    ensures IsControl(a) <==> IsLegal(a) && KeyOf(a).Some?
    ensures SameControl(a, b) <==> IsLegal(a) && IsLegal(b) && KeyOf(a).Some? && KeyOf(a) == KeyOf(b)
  {
  }

  // ---------------------------------------------------------------- what is kept

  /** What the messages set. */
  function Keys(s: seq<Message>): set<Key> {
    if s == [] then {} else Keys(s[1..]) + if IsLegal(s[0]) && KeyOf(s[0]).Some? then {KeyOf(s[0]).value} else {}
  }

  predicate Included(m: Message, replaced: set<Key>) {
    IsLegal(m) && (KeyOf(m).None? || KeyOf(m).value !in replaced)
  }

  /** The legal messages that are not replaced by later ones, nor by what sets `replaced`. */
  function FilterBefore(s: seq<Message>, replaced: set<Key>): seq<Message> {
    if s == [] then []
    else
      (if Included(s[0], replaced + Keys(s[1..])) then [s[0]] else []) + FilterBefore(s[1..], replaced)
  }

  function Filter(s: seq<Message>): seq<Message> {
    FilterBefore(s, {})
  }

  // ---------------------------------------------------------------- what that means

  predicate IsSubsequence(s: seq<Message>, t: seq<Message>)
    decreases |t|
  {
    s == [] || (t != [] && if s[0] == t[0] then IsSubsequence(s[1..], t[1..]) else IsSubsequence(s, t[1..]))
  }

  lemma {:induction false} SubsequenceLonger(s: seq<Message>, t: seq<Message>, m: Message)
    requires IsSubsequence(s, t)
    ensures IsSubsequence(s, [m] + t)
    decreases |t|, 1
  {
    var u := [m] + t;
    assert u[1..] == t;
    if s != [] && s[0] == m {
      SubsequenceTail(s, t);
    }
  }

  lemma {:induction false} SubsequenceTail(s: seq<Message>, t: seq<Message>)
    requires IsSubsequence(s, t) && s != []
    ensures IsSubsequence(s[1..], t)
    decreases |t|, 0
  {
    if s[0] == t[0] {
      assert [t[0]] + t[1..] == t;
      SubsequenceLonger(s[1..], t[1..], t[0]);
    } else {
      SubsequenceTail(s, t[1..]);
      assert [t[0]] + t[1..] == t;
      SubsequenceLonger(s[1..], t[1..], t[0]);
    }
  }

  /** Filtering takes messages out and leaves the order of the others alone. */
  lemma {:induction false} FilterIsSubsequence(s: seq<Message>, replaced: set<Key>)
    ensures IsSubsequence(FilterBefore(s, replaced), s)
  {
    if s != [] {
      var rest := FilterBefore(s[1..], replaced);
      FilterIsSubsequence(s[1..], replaced);
      assert [s[0]] + s[1..] == s;
      if Included(s[0], replaced + Keys(s[1..])) {
        assert ([s[0]] + rest)[1..] == rest;
      } else {
        SubsequenceLonger(rest, s[1..], s[0]);
        assert FilterBefore(s, replaced) == rest;
      }
    }
  }

  /** The notes and program changes among the messages. */
  function Events(s: seq<Message>): seq<Message> {
    if s == [] then [] else (if IsEvent(s[0]) then [s[0]] else []) + Events(s[1..])
  }

  /** None of them is filtered out. */
  lemma {:induction false} EventsSurvive(s: seq<Message>, replaced: set<Key>)
    ensures Events(FilterBefore(s, replaced)) == Events(s)
  {
    if s != [] {
      var rest := FilterBefore(s[1..], replaced);
      EventsSurvive(s[1..], replaced);
      KeysMean(s[0], s[0]);
      hide IsEvent, KeyOf, IsLegal;
      assert ([s[0]] + rest)[1..] == rest;
      assert [] + rest == rest;
    }
  }

  /** The last message for each key: the state a receiver ends up in. */
  function Controllers(s: seq<Message>): map<Key, Message> {
    if s == [] then map[]
    else
      var later := Controllers(s[1..]);
      if IsLegal(s[0]) && KeyOf(s[0]).Some? && KeyOf(s[0]).value !in later then later[KeyOf(s[0]).value := s[0]] else later
  }

  lemma {:induction false} ControllerKeys(s: seq<Message>)
    ensures Controllers(s).Keys == Keys(s)
  {
    if s != [] {
      ControllerKeys(s[1..]);
    }
  }

  /** Filtering does not change the state a receiver ends up in. */
  lemma {:induction false} SameControllers(s: seq<Message>, replaced: set<Key>)
    ensures Controllers(FilterBefore(s, replaced)) == Controllers(s) - replaced
  {
    if s != [] {
      var rest := FilterBefore(s[1..], replaced);
      SameControllers(s[1..], replaced);
      ControllerKeys(s[1..]);
      assert ([s[0]] + rest)[1..] == rest;
      assert [] + rest == rest;
    }
  }

  /** The last message in `s` that can take the place of `m`. */
  function LastLike(s: seq<Message>, m: Message): Option<Message> {
    if s == [] then None
    else
      var later := LastLike(s[1..], m);
      if later.Some? then later else if SameControl(s[0], m) then Some(s[0]) else None
  }

  lemma {:induction false} ControllersAreLast(s: seq<Message>, m: Message)
    requires IsControl(m)
    ensures IsLegal(m) && KeyOf(m).Some?
    ensures LastLike(s, m) == if KeyOf(m).value in Controllers(s) then Some(Controllers(s)[KeyOf(m).value]) else None
  {
    KeysMean(m, m);
    if s != [] {
      ControllersAreLast(s[1..], m);
      KeysMean(s[0], m);
      hide KeyOf, IsLegal, SameControl, IsControl;
    }
  }

  /** So the receiver hears, of all controls that could take the place of any one, the same last. */
  lemma LastIsKept(s: seq<Message>, m: Message)
    ensures LastLike(Filter(s), m) == LastLike(s, m)
  {
    if IsControl(m) {
      ControllersAreLast(s, m);
      ControllersAreLast(Filter(s), m);
      SameControllers(s, {});
    } else {
      NothingLike(s, m);
      NothingLike(Filter(s), m);
    }
  }

  lemma {:induction false} NothingLike(s: seq<Message>, m: Message)
    requires !IsControl(m)
    ensures LastLike(s, m) == None
  {
    if s != [] {
      NothingLike(s[1..], m);
    }
  }

  lemma {:induction false} KeyAmong(s: seq<Message>, i: nat)
    requires i < |s| && IsLegal(s[i]) && KeyOf(s[i]).Some?
    ensures KeyOf(s[i]).value in Keys(s)
  {
    if i > 0 {
      assert s[1..][i - 1] == s[i];
      KeyAmong(s[1..], i - 1);
    }
  }

  /** And of those no other: what is left is legal, and no two of it could take each other's place. */
  lemma {:induction false} OneOfEach(s: seq<Message>, replaced: set<Key>, i: nat, j: nat)
    requires i <= j < |FilterBefore(s, replaced)|
    ensures IsEvent(FilterBefore(s, replaced)[i]) || IsControl(FilterBefore(s, replaced)[i])
    ensures i < j ==> !SameControl(FilterBefore(s, replaced)[i], FilterBefore(s, replaced)[j])
    decreases |s|
  {
    var rest := FilterBefore(s[1..], replaced);
    FilterBeforeIs(s, replaced);
    if !Included(s[0], replaced + Keys(s[1..])) {
      assert FilterBefore(s, replaced) == rest;
      OneOfEach(s[1..], replaced, i, j);
    } else if i > 0 {
      assert FilterBefore(s, replaced)[i] == rest[i - 1] && FilterBefore(s, replaced)[j] == rest[j - 1];
      OneOfEach(s[1..], replaced, i - 1, j - 1);
    } else {
      KeysMean(s[0], s[0]);
      if j > 0 {
        assert FilterBefore(s, replaced)[j] == rest[j - 1];
        KeysMean(s[0], rest[j - 1]);
        KeysOfFiltered(s[1..], replaced);
        if SameControl(s[0], rest[j - 1]) {
          KeyAmong(rest, j - 1);
        }
      }
    }
  }

  // ---------------------------------------------------------------- batches

  lemma {:induction false} KeysConcat(a: seq<Message>, b: seq<Message>)
    ensures Keys(a + b) == Keys(a) + Keys(b)
  {
    if a == [] {
      assert a + b == b;
    } else {
      KeysConcat(a[1..], b);
      assert (a + b)[1..] == a[1..] + b;
    }
  }

  lemma {:induction false} FilterConcat(a: seq<Message>, b: seq<Message>, replaced: set<Key>)
    ensures FilterBefore(a + b, replaced) == FilterBefore(a, replaced + Keys(b)) + FilterBefore(b, replaced)
  {
    FilterBeforeIs(a, replaced + Keys(b));
    FilterBeforeIs(a + b, replaced);
    hide *;
    if a == [] {
      assert a + b == b;
    } else {
      FilterConcat(a[1..], b, replaced);
      assert (a + b)[1..] == a[1..] + b;
      KeysConcat(a[1..], b);
      assert replaced + Keys(a[1..] + b) == replaced + Keys(b) + Keys(a[1..]);
    }
  }

  lemma FilterBeforeIs(s: seq<Message>, replaced: set<Key>)
    ensures s == [] ==> FilterBefore(s, replaced) == []
    ensures s != [] ==>
              FilterBefore(s, replaced) ==
              (if Included(s[0], replaced + Keys(s[1..])) then [s[0]] else []) + FilterBefore(s[1..], replaced)
  {
  }

  lemma {:induction false} KeysOfFiltered(s: seq<Message>, replaced: set<Key>)
    ensures Keys(FilterBefore(s, replaced)) == Keys(s) - replaced
  {
    if s != [] {
      var rest := FilterBefore(s[1..], replaced);
      KeysOfFiltered(s[1..], replaced);
      assert ([s[0]] + rest)[1..] == rest;
      assert [] + rest == rest;
    }
  }

  lemma {:induction false} FilterTwice(s: seq<Message>, first: set<Key>, second: set<Key>)
    ensures FilterBefore(FilterBefore(s, first), second) == FilterBefore(s, first + second)
  {
    if s != [] {
      var rest := FilterBefore(s[1..], first);
      FilterTwice(s[1..], first, second);
      KeysOfFiltered(s[1..], first);
      assert ([s[0]] + rest)[1..] == rest;
      assert [] + rest == rest;
      assert Included(s[0], first + second + Keys(s[1..])) <==>
             Included(s[0], first + Keys(s[1..])) && Included(s[0], second + (Keys(s[1..]) - first));
    }
  }

  /** Filtering batches first and then what they make together is filtering everything at once. */
  lemma BatchesFirst(a: seq<Message>, b: seq<Message>)
    ensures Filter(Filter(a) + Filter(b)) == Filter(a + b)
  {
    FilterConcat(Filter(a), Filter(b), {});
    FilterConcat(a, b, {});
    KeysOfFiltered(b, {});
    FilterTwice(a, {}, Keys(b));
    FilterTwice(b, {}, {});
    assert {} + Keys(b) == Keys(b) == Keys(b) - {};
    var none: set<Key> := {};
    assert none + none == none;
  }

  // ---------------------------------------------------------------- the filter with its flags

  class Filterer {
    const polyPressure: array<bool>
    const controlChange: array<bool>
    const channelPressure: array<bool>
    const pitchBend: array<bool>

    ghost predicate Valid() {
      && polyPressure.Length == controlChange.Length == CHANNELS * NOTES
      && channelPressure.Length == pitchBend.Length == CHANNELS
      && polyPressure != controlChange && channelPressure != pitchBend
      && polyPressure != channelPressure && polyPressure != pitchBend
      && controlChange != channelPressure && controlChange != pitchBend
    }

    ghost function Flags(): set<array<bool>> {
      {polyPressure, controlChange, channelPressure, pitchBend}
    }

    /** The flag of a key. */
    ghost predicate Got(k: Key)
      requires Valid() && InRange(k)
      reads Flags()
    {
      match k
      case PolyPressure(c, n) => polyPressure[c * NOTES + n]
      case ControlChange(c, n) => controlChange[c * NOTES + n]
      case ChannelPressure(c) => channelPressure[c]
      case PitchBend(c) => pitchBend[c]
    }

    /** The flags that are up are those of the keys in `keys`. */
    ghost predicate HasGot(keys: set<Key>)
      requires Valid()
      reads Flags()
    {
      (forall k :: k in keys ==> InRange(k)) && forall k :: InRange(k) ==> (Got(k) <==> k in keys)
    }

    constructor ()
      ensures Valid() && fresh(Flags())
    {
      polyPressure, controlChange := new bool[CHANNELS * NOTES], new bool[CHANNELS * NOTES];
      channelPressure, pitchBend := new bool[CHANNELS], new bool[CHANNELS];
    }

    method Clear(flags: array<bool>)
      modifies flags
      ensures forall i :: 0 <= i < flags.Length ==> !flags[i]
    {
      for i := 0 to flags.Length
        invariant forall j :: 0 <= j < i ==> !flags[j]
      {
        flags[i] := false;
      }
    }

    method Reset()
      requires Valid()
      modifies Flags()
      ensures HasGot({})
    {
      Clear(polyPressure);
      Clear(controlChange);
      Clear(channelPressure);
      Clear(pitchBend);
    }

    /** Raises a flag, and says whether it was up before. */
    method Raise(k: Key, ghost keys: set<Key>) returns (already: bool)
      requires Valid() && InRange(k) && HasGot(keys)
      modifies Flags()
      ensures already <==> k in keys
      ensures HasGot(keys + {k})
    {
      match k
      case PolyPressure(c, n) =>
        already := polyPressure[c * NOTES + n];
        polyPressure[c * NOTES + n] := true;
      case ControlChange(c, n) =>
        already := controlChange[c * NOTES + n];
        controlChange[c * NOTES + n] := true;
      case ChannelPressure(c) =>
        already := channelPressure[c];
        channelPressure[c] := true;
      case PitchBend(c) =>
        already := pitchBend[c];
        pitchBend[c] := true;
    }

    /** To be asked backwards through a batch: whether the message is to be kept. */
    method ShouldInclude(m: Message, ghost keys: set<Key>) returns (include_: bool)
      requires Valid() && HasGot(keys)
      modifies Flags()
      ensures include_ <==> Included(m, keys)
      ensures HasGot(keys + if IsLegal(m) && KeyOf(m).Some? then {KeyOf(m).value} else {})
    {
      assert keys + {} == keys;
      var status := Status(m);
      if status < 8 {
        return false;
      }
      if Value1(m) >= 128 {
        return false;
      }
      if Value2(m) >= 128 {
        return false;
      }
      if status == 15 {
        return false;
      }
      if status == 8 || status == 9 || status == 12 {
        return true;
      }
      var already := Raise(KeyOf(m).value, keys);
      include_ := !already;
    }
  }

  // ---------------------------------------------------------------- the first stage: in the input buffers

  function WithoutZeros(s: seq<Message>): seq<Message> {
    if s == [] then [] else (if s[0] != 0 then [s[0]] else []) + WithoutZeros(s[1..])
  }

  /** `s` with zeros in place of the messages that are filtered out. */
  ghost predicate Marked(s: seq<Message>, was: seq<Message>) {
    && |s| == |was|
    && forall i :: 0 <= i < |s| ==> s[i] == if Included(was[i], Keys(was[i + 1..])) then was[i] else 0
  }

  lemma MarkedTail(s: seq<Message>, was: seq<Message>)
    requires Marked(s, was) && s != []
    ensures Marked(s[1..], was[1..])
    ensures s[0] == if Included(was[0], Keys(was[1..])) then was[0] else 0
  {
    assert was[0 + 1..] == was[1..];
    forall i | 0 <= i < |s[1..]|
      ensures s[1..][i] == if Included(was[1..][i], Keys(was[1..][i + 1..])) then was[1..][i] else 0
    {
      assert was[1..][i + 1..] == was[i + 1 + 1..];
      assert s[1..][i] == s[i + 1];
    }
  }

  /** Zero is no legal message, so that what is left unmarked is what is kept. */
  lemma {:induction false} MarkedIsFiltered(s: seq<Message>, was: seq<Message>)
    requires Marked(s, was)
    ensures WithoutZeros(s) == Filter(was)
    decreases |s|
  {
    if s != [] {
      MarkedTail(s, was);
      MarkedIsFiltered(s[1..], was[1..]);
      assert {} + Keys(was[1..]) == Keys(was[1..]);
    }
  }

  lemma NoKeys(s: seq<Message>)
    ensures s == [] ==> Keys(s) == {}
  {
  }

  /** The keys from `i` on are those behind and that of the message itself, if it has one. */
  lemma KeysFrom(s: seq<Message>, i: nat)
    requires i < |s|
    ensures Keys(s[i..]) == Keys(s[i + 1..]) + if IsLegal(s[i]) && KeyOf(s[i]).Some? then {KeyOf(s[i]).value} else {}
  {
    assert s[i..][1..] == s[i + 1..];
  }

  /** Marks, in the buffer of one device, the messages that are replaced by later ones. */
  method FilterBuffer(f: Filterer, messages: array<Message>, n: nat)
    requires f.Valid() && n <= messages.Length
    modifies f.Flags(), messages
    ensures Marked(messages[..n], old(messages[..n]))
    ensures WithoutZeros(messages[..n]) == Filter(old(messages[..n]))
    ensures messages[n..] == old(messages[n..])
  {
    hide Included, Keys, Filter, WithoutZeros, Filterer.HasGot;
    ghost var was := messages[..n];
    f.Reset();
    NoKeys(was[n..]);
    for i := n downto 0
      invariant f.HasGot(Keys(was[i..]))
      invariant forall j :: 0 <= j < i ==> messages[j] == was[j]
      invariant forall j :: i <= j < n ==> messages[j] == if Included(was[j], Keys(was[j + 1..])) then was[j] else 0
      invariant messages[n..] == old(messages[n..])
    {
      KeysFrom(was, i);
      var keep := f.ShouldInclude(messages[i], Keys(was[i + 1..]));
      if !keep {
        messages[i] := 0;
      }
    }
    MarkedIsFiltered(messages[..n], was);
  }

  datatype Buffer = Buffer(messages: array<Message>, count: nat)

  /** Every device's buffer is filtered for itself. */
  method FilterInput(f: Filterer, buffers: seq<Buffer>)
    requires f.Valid()
    requires forall i :: 0 <= i < |buffers| ==> buffers[i].count <= buffers[i].messages.Length
    requires forall i, j :: 0 <= i < j < |buffers| ==> buffers[i].messages != buffers[j].messages
    modifies f.Flags(), set i | 0 <= i < |buffers| :: buffers[i].messages
    ensures forall i :: 0 <= i < |buffers| ==>
              WithoutZeros(buffers[i].messages[..buffers[i].count]) == Filter(old(buffers[i].messages[..buffers[i].count]))
  {
    for i := 0 to |buffers|
      invariant forall j :: 0 <= j < i ==>
                  WithoutZeros(buffers[j].messages[..buffers[j].count]) == Filter(old(buffers[j].messages[..buffers[j].count]))
      invariant forall j :: i <= j < |buffers| ==> buffers[j].messages[..] == old(buffers[j].messages[..])
    {
      if buffers[i].count == 0 {
        continue;
      }
      ghost var was := buffers[i].messages[..];
      assert was[..buffers[i].count] == old(buffers[i].messages[..buffers[i].count]);
      FilterBuffer(f, buffers[i].messages, buffers[i].count);
    }
  }

  // ---------------------------------------------------------------- the second stage: in the dispatcher

  datatype Item = Item(device: string, message: Message)

  /** The messages of one device. */
  function Project(items: seq<Item>, device: string): seq<Message> {
    if items == [] then [] else (if items[0].device == device then [items[0].message] else []) + Project(items[1..], device)
  }

  function FilterItems(items: seq<Item>): seq<Item> {
    if items == [] then []
    else
      (if Included(items[0].message, Keys(Project(items[1..], items[0].device))) then [items[0]] else []) + FilterItems(items[1..])
  }

  /** Seen from one device, the others make no difference. */
  lemma {:induction false} ProjectFiltered(items: seq<Item>, device: string)
    ensures Project(FilterItems(items), device) == Filter(Project(items, device))
  {
    if items != [] {
      var rest := FilterItems(items[1..]);
      ProjectFiltered(items[1..], device);
      assert ([items[0]] + rest)[1..] == rest;
      assert [] + rest == rest && {} + Keys(Project(items[1..], device)) == Keys(Project(items[1..], device));
      var later := Project(items[1..], device);
      assert ([items[0].message] + later)[1..] == later && [] + later == later;
    }
  }

  lemma {:induction false} ProjectConcat(a: seq<Item>, b: seq<Item>, device: string)
    ensures Project(a + b, device) == Project(a, device) + Project(b, device)
  {
    ProjectIs(a, device);
    ProjectIs(a + b, device);
    hide *;
    if a == [] {
      assert a + b == b;
    } else {
      assert (a + b)[1..] == a[1..] + b;
      ProjectConcat(a[1..], b, device);
      Associative(if a[0].device == device then [a[0].message] else [], Project(a[1..], device), Project(b, device));
    }
  }

  lemma ProjectIs(items: seq<Item>, device: string)
    ensures items == [] ==> Project(items, device) == []
    ensures items != [] ==>
              Project(items, device) == (if items[0].device == device then [items[0].message] else []) + Project(items[1..], device)
  {
  }

  lemma Associative(a: seq<Message>, b: seq<Message>, c: seq<Message>)
    ensures a + b + c == a + (b + c)
  {
  }

  /** Batches of items, one after the other, as they are queued. */
  function Queued(batches: seq<seq<Item>>): seq<Item> {
    if batches == [] then [] else Queued(batches[..|batches| - 1]) + batches[|batches| - 1]
  }

  /** Of each device, `passed` holds what the first stage leaves of each batch. */
  ghost predicate PassedOn(passed: seq<seq<Item>>, batches: seq<seq<Item>>) {
    && |passed| == |batches|
    && forall i, d :: 0 <= i < |batches| ==> Project(passed[i], d) == Filter(Project(batches[i], d))
  }

  /** The two stages together: any number of batches, each filtered for each device and then queued in any
      order of the devices, come out of the second stage as everything would that is filtered at once. */
  lemma StagesAgree(passed: seq<seq<Item>>, batches: seq<seq<Item>>, device: string)
    requires PassedOn(passed, batches)
    ensures Project(FilterItems(Queued(passed)), device) == Filter(Project(Queued(batches), device))
  {
    ProjectFiltered(Queued(passed), device);
    QueuedFiltered(passed, batches, device);
  }

  lemma {:induction false} QueuedFiltered(passed: seq<seq<Item>>, batches: seq<seq<Item>>, device: string)
    requires PassedOn(passed, batches)
    ensures Filter(Project(Queued(passed), device)) == Filter(Project(Queued(batches), device))
    decreases |batches|
  {
    if batches != [] {
      var n := |batches| - 1;
      QueuedFiltered(passed[..n], batches[..n], device);
      ProjectConcat(Queued(passed[..n]), passed[n], device);
      ProjectConcat(Queued(batches[..n]), batches[n], device);
      hide Filter, Project;
      assert Queued(passed) == Queued(passed[..n]) + passed[n];
      LastBatch(Project(Queued(passed[..n]), device), Project(Queued(batches[..n]), device), Project(batches[n], device));
    }
  }

  lemma LastBatch(p: seq<Message>, q: seq<Message>, b: seq<Message>)
    requires Filter(p) == Filter(q)
    ensures Filter(p + Filter(b)) == Filter(q + b)
  {
    FilterTwice(b, {}, {});
    var none: set<Key> := {};
    assert none + none == none;
    assert Filter(Filter(b)) == Filter(b);
    hide Filter;
    BatchesFirst(p, Filter(b));
    BatchesFirst(q, b);
  }

  lemma ProjectCons(item: Item, later: seq<Item>)
    ensures forall d :: Project([item] + later, d) == (if item.device == d then [item.message] else []) + Project(later, d)
    ensures forall d :: d != item.device ==> Project([item] + later, d) == Project(later, d)
    ensures Keys(Project([item] + later, item.device)) ==
            Keys(Project(later, item.device)) + if IsLegal(item.message) && KeyOf(item.message).Some? then {KeyOf(item.message).value} else {}
  {
    assert ([item] + later)[1..] == later;
    var own := Project(later, item.device);
    assert ([item.message] + own)[1..] == own;
  }

  lemma FilterItemsCons(item: Item, later: seq<Item>)
    ensures FilterItems([item] + later) ==
            (if Included(item.message, Keys(Project(later, item.device))) then [item] else []) + FilterItems(later)
  {
    assert ([item] + later)[1..] == later;
  }

  type Filters = map<string, Filterer>

  /** Filters for different devices have flags of their own. */
  ghost predicate Apart(filters: Filters) {
    && (forall d :: d in filters ==> filters[d].Valid())
    && (forall d, e :: d in filters && e in filters && d != e ==> filters[d].Flags() !! filters[e].Flags())
  }

  ghost function FlagsOf(filters: Filters): set<array<bool>> {
    set d, o | d in filters && o in filters[d].Flags() :: o
  }

  /** The filters have got what the items set, each for its device. */
  ghost predicate HaveGot(filters: Filters, items: seq<Item>)
    requires Apart(filters)
    reads FlagsOf(filters)
  {
    && (forall d :: d in filters ==> filters[d].HasGot(Keys(Project(items, d))))
    && (forall d :: d !in filters ==> Project(items, d) == [])
  }

  lemma NothingGot(filters: Filters)
    requires Apart(filters) && forall d :: d in filters ==> filters[d].HasGot({})
    ensures HaveGot(filters, []) && FilterItems([]) == []
  {
  }

  lemma FlagsWithin(filters: Filters)
    ensures forall d :: d in filters ==> filters[d].Flags() <= FlagsOf(filters)
  {
  }

  lemma ApartIs(filters: Filters)
    requires Apart(filters)
    ensures forall d :: d in filters ==> filters[d].Valid()
    ensures forall d, e :: d in filters && e in filters && d != e ==> filters[d].Flags() !! filters[e].Flags()
  {
  }

  lemma FlagsAdded(filters: Filters, device: string, f: Filterer)
    requires device !in filters
    ensures FlagsOf(filters[device := f]) == FlagsOf(filters) + f.Flags()
  {
    var m := filters[device := f];
    assert m[device] == f && forall d :: d in filters ==> m[d] == filters[d];
    hide Filterer.Flags;
    forall o | o in FlagsOf(filters) ensures o in FlagsOf(m) {
      var d :| d in filters && o in filters[d].Flags();
      assert o in m[d].Flags();
    }
  }

  lemma StillApart(filters: Filters, device: string, f: Filterer)
    requires Apart(filters) && device !in filters && f.Valid() && f.Flags() !! FlagsOf(filters)
    ensures Apart(filters[device := f])
  {
    FlagsWithin(filters);
    hide Filterer.Flags, FlagsOf;
  }

  /** A filter whose flags are down fits in for a device that has set nothing. */
  lemma FilterAdded(filters: Filters, device: string, f: Filterer, items: seq<Item>)
    requires Apart(filters) && HaveGot(filters, items) && device !in filters
    requires f.Valid() && f.HasGot({}) && f.Flags() !! FlagsOf(filters)
    ensures Apart(filters[device := f]) && HaveGot(filters[device := f], items)
    ensures FlagsOf(filters[device := f]) == FlagsOf(filters) + f.Flags()
  {
    assert Keys([]) == {};
    StillApart(filters, device, f);
    FlagsAdded(filters, device, f);
    hide Filterer.HasGot, Filterer.Got, Filterer.Flags, FlagsOf, Keys, Project, Apart;
  }

  class Dispatcher {
    var filters: Filters

    constructor ()
      ensures Apart(filters) && filters == map[]
    {
      filters := map[];
    }

    method ResetAll()
      requires Apart(filters)
      modifies FlagsOf(filters)
      ensures unchanged(this) && forall d :: d in filters ==> filters[d].HasGot({})
    {
      hide Filterer.HasGot, Filterer.Got, FlagsOf, Apart;
      FlagsWithin(filters);
      ApartIs(filters);
      var todo := filters.Keys;
      while todo != {}
        invariant todo <= filters.Keys && unchanged(this)
        invariant forall d :: d in filters && d !in todo ==> filters[d].HasGot({})
        decreases todo
      {
        var d :| d in todo;
        filters[d].Reset();
        todo := todo - {d};
      }
    }

    /** A filter whose flags are down. */
    method NewFilter(ghost others: set<array<bool>>) returns (filterer: Filterer)
      ensures filterer.Valid() && fresh(filterer) && fresh(filterer.Flags()) && filterer.HasGot({})
      ensures filterer.Flags() !! others
    {
      hide Filterer.HasGot, Filterer.Got;
      filterer := new Filterer();
      filterer.Reset();
    }

    /** A device that is new gets a filter. */
    method EnsureFilter(device: string, ghost later: seq<Item>)
      requires Apart(filters) && HaveGot(filters, later)
      modifies `filters
      ensures Apart(filters) && HaveGot(filters, later) && device in filters
      ensures if device in old(filters) then filters == old(filters)
              else fresh(filters[device].Flags()) && FlagsOf(filters) == old(FlagsOf(filters)) + filters[device].Flags()
    {
      hide Filterer.HasGot, Filterer.Got, HaveGot, Keys, Project, Apart;
      if device !in filters {
        var filterer := NewFilter(FlagsOf(filters));
        FilterAdded(filters, device, filterer, later);
        filters := filters[device := filterer];
      }
    }

    /** Filters one item, those behind it having been filtered. */
    method FilterItem(item: Item, ghost later: seq<Item>) returns (keep: bool)
      requires Apart(filters) && HaveGot(filters, later) && item.device in filters
      modifies FlagsOf(filters)
      ensures unchanged(this) && HaveGot(filters, [item] + later)
      ensures keep <==> Included(item.message, Keys(Project(later, item.device)))
    {
      ProjectCons(item, later);
      hide Filterer.HasGot, Filterer.Got, Keys, Project, Included;
      assert filters[item.device].Flags() <= FlagsOf(filters);
      keep := filters[item.device].ShouldInclude(item.message, Keys(Project(later, item.device)));
    }

    /** Filters a batch of messages from all devices. */
    method MakeFilteredItems(items: seq<Item>) returns (filtered: seq<Item>)
      requires Apart(filters)
      modifies this, FlagsOf(filters)
      ensures Apart(filters) && fresh(FlagsOf(filters) - old(FlagsOf(filters)))
      ensures filtered == FilterItems(items)
      ensures forall d :: Project(filtered, d) == Filter(Project(items, d))
    {
      hide *;
      ResetAll();
      filtered := [];
      NothingGot(filters);
      assert items[|items|..] == [];
      for i := |items| downto 0
        invariant Apart(filters) && fresh(FlagsOf(filters) - old(FlagsOf(filters)))
        invariant filtered == FilterItems(items[i..]) && HaveGot(filters, items[i..])
      {
        assert items[i..] == [items[i]] + items[i + 1..];
        FilterItemsCons(items[i], items[i + 1..]);
        EnsureFilter(items[i].device, items[i + 1..]);
        var keep := FilterItem(items[i], items[i + 1..]);
        if keep {
          filtered := [items[i]] + filtered;
        }
      }
      assert items[0..] == items;
      forall d ensures Project(filtered, d) == Filter(Project(items, d)) {
        ProjectFiltered(items, d);
      }
    }

    /** Drops the filters of the devices that are no longer active. */
    method Prune(active: set<string>)
      requires Apart(filters)
      modifies this
      ensures Apart(filters) && filters.Keys == old(filters.Keys) * active
      ensures forall d :: d in filters ==> filters[d] == old(filters)[d]
    {
      filters := map d | d in filters && d in active :: filters[d];
    }
  }
}
