/** The ordered list of windows and the map from window keys to positions.

    Windows are numbered from 1; window 1 is the status window.  Everything here is about
    the list of window targets, the map and the number of the focused window, as values. */
module WindowIndex {
  import opened Strings

  datatype Kind = Status | Channel | Dm | Raw | Nodelist

  datatype Target = Target(device: string, kind: Kind, id: nat)

  const STATUS := Target("", Status, 0)

  function KindName(k: Kind): string {
    match k
    case Status => "status"
    case Channel => "channel"
    case Dm => "dm"
    case Raw => "raw"
    case Nodelist => "nodelist"
  }

  /** The key of a window: device, kind and number, joined by bars. */
  function Key(t: Target): string {
    t.device + "|" + KindName(t.kind) + "|" + Decimal(t.id)
  }

  /** Different targets have different keys, whatever the device names look like. */
  lemma KeyInjective(a: Target, b: Target)
    requires Key(a) == Key(b)
    ensures a == b
  {
    LastSeparator(a.device + "|" + KindName(a.kind), Decimal(a.id),
                  b.device + "|" + KindName(b.kind), Decimal(b.id), '|');
    LastSeparator(a.device, KindName(a.kind), b.device, KindName(b.kind), '|');
    DecimalInjective(a.id, b.id);
    KindNameInjective(a.kind, b.kind);
  }

  lemma KindNameInjective(a: Kind, b: Kind)
    requires KindName(a) == KindName(b)
    ensures a == b
  {
    assert KindName(a)[0] == KindName(b)[0];
  }

  datatype Index = Index(targets: seq<Target>, byKey: map<string, int>, current: int)

  const START := Index([STATUS], map[Key(STATUS) := 1], 1)

  /** Kinds of which there is one window per number, whatever the device. */
  predicate Shared(kind: Kind) {
    kind.Channel? || kind.Dm? || kind.Nodelist?
  }

  // --------------------------------------------------------------- invariant

  function Keys(targets: seq<Target>): (keys: seq<string>)
    ensures |keys| == |targets|
  {
    seq(|targets|, i requires 0 <= i < |targets| => Key(targets[i]))
  }

  /** The map is a bijection between the keys and the positions 1..N. */
  ghost predicate Bijective(keys: seq<string>, byKey: map<string, int>) {
    && (forall i :: 0 <= i < |keys| ==> keys[i] in byKey && byKey[keys[i]] == i + 1)
    && (forall k :: k in byKey ==> 1 <= byKey[k] <= |keys| && keys[byKey[k] - 1] == k)
  }

  ghost predicate OnePerNumber(targets: seq<Target>) {
    forall i, j :: 0 <= i < j < |targets| && Shared(targets[i].kind) ==>
      !(targets[i].kind == targets[j].kind && targets[i].id == targets[j].id)
  }

  /** Node lists have no number of their own. */
  predicate Numbered(t: Target) {
    t.kind.Nodelist? ==> t.id == 0
  }

  /** Window 1, and only window 1, is the status window; shared kinds have one window a number,
      and the node list has the number zero. */
  ghost predicate WellFormed(targets: seq<Target>) {
    && targets != [] && targets[0] == STATUS
    && (forall i :: 1 <= i < |targets| ==> !targets[i].kind.Status?)
    && (forall i :: 0 <= i < |targets| ==> Numbered(targets[i]))
    && OnePerNumber(targets)
  }

  /** There is at most one node list, whatever its device. */
  lemma OneNodelist(targets: seq<Target>, i: nat)
    requires WellFormed(targets) && i < |targets| && targets[i].kind.Nodelist?
    ensures forall j :: 0 <= j < |targets| && j != i ==> !targets[j].kind.Nodelist?
  {
    assert Numbered(targets[i]);
    forall j | 0 <= j < |targets| && j != i ensures !targets[j].kind.Nodelist? {
      assert Numbered(targets[j]);
    }
  }

  ghost predicate Inv(ix: Index) {
    && WellFormed(ix.targets)
    && Bijective(Keys(ix.targets), ix.byKey)
    && 1 <= ix.current <= |ix.targets|
  }

  // -------------------------------------------------------------- operations

  /** Position of the window with the kind and number, or the number of windows. */
  function FindNumber(targets: seq<Target>, kind: Kind, id: nat): (i: nat)
    ensures i <= |targets|
    ensures forall j :: 0 <= j < i ==> !(targets[j].kind == kind && targets[j].id == id)
    ensures i < |targets| ==> targets[i].kind == kind && targets[i].id == id
  {
    if targets == [] || (targets[0].kind == kind && targets[0].id == id) then 0
    else 1 + FindNumber(targets[1..], kind, id)
  }

  function Add(ix: Index, t: Target): Index {
    ix.(targets := ix.targets + [t], byKey := ix.byKey[Key(t) := |ix.targets| + 1])
  }

  function Retarget(ix: Index, i: nat, t: Target): Index
    requires i < |ix.targets|
  {
    ix.(targets := ix.targets[i := t], byKey := (ix.byKey - {Key(ix.targets[i])})[Key(t) := i + 1])
  }

  /** The window for a channel, a peer or the node list: the one there is with that number,
      now under the given device, or a new one at the end. */
  function EnsureShared(ix: Index, t: Target): Index {
    var i := FindNumber(ix.targets, t.kind, t.id);
    if i == |ix.targets| then Add(ix, t) else Retarget(ix, i, t)
  }

  function EnsureRaw(ix: Index, t: Target): Index {
    if Key(t) in ix.byKey then ix else Add(ix, t)
  }

  function Renumbered(byKey: map<string, int>, index: int): map<string, int> {
    map k | k in byKey :: if byKey[k] > index then byKey[k] - 1 else byKey[k]
  }

  /** Where the focus goes when window `index` is closed. */
  function FocusAfterClose(current: int, index: int): int {
    if current == index then (if index - 1 > 1 then index - 1 else 1)
    else if current > index then current - 1
    else current
  }

  predicate CanClose(ix: Index, index: int) {
    1 < index <= |ix.targets|
  }

  function Close(ix: Index, index: int): Index {
    if !CanClose(ix, index) then ix
    else
      var targets := ix.targets[..index - 1] + ix.targets[index..];
      var focus := FocusAfterClose(ix.current, index);
      Index(targets, Renumbered(ix.byKey - {Key(ix.targets[index - 1])}, index),
            if focus > |targets| then |targets| else focus)
  }

  /** Only channel and DM windows are closed when they are left empty. */
  predicate ClosesWhenEmpty(t: Target) {
    t.kind.Dm? || t.kind.Channel?
  }

  /** The focus is about to move to `index`: the window left behind is closed if `empty` and
      of a kind that is closed then. */
  predicate Leaves(ix: Index, index: int, empty: bool) {
    && ix.current != index && CanClose(ix, ix.current)
    && empty && ClosesWhenEmpty(ix.targets[ix.current - 1])
  }

  function Leave(ix: Index, index: int, empty: bool): Index {
    if Leaves(ix, index, empty) then Close(ix, ix.current) else ix
  }

  /** The number window `index` has after that. */
  function NumberAfterLeaving(ix: Index, index: int, empty: bool): int {
    if Leaves(ix, index, empty) && ix.current < index then index - 1 else index
  }

  /** Leaving closes the window left exactly when the focus moves away from an empty one of a
      kind that is closed then, and takes the numbers behind it down by one. */
  lemma LeavesWhenEmpty(ix: Index, index: int, empty: bool)
    requires empty ==> CanClose(ix, ix.current) && ClosesWhenEmpty(ix.targets[ix.current - 1])
    ensures Leave(ix, index, empty) == if ix.current != index && empty then Close(ix, ix.current) else ix
    ensures NumberAfterLeaving(ix, index, empty) ==
              if ix.current != index && empty && ix.current < index then index - 1 else index
  {
  }

  /** Move the focus; `empty` says whether the window left behind has nothing in it. */
  function Select(ix: Index, index: int, empty: bool): Index {
    var left, number := Leave(ix, index, empty), NumberAfterLeaving(ix, index, empty);
    if 1 <= number <= |left.targets| then left.(current := number) else left
  }

  // ------------------------------------------------------------ preservation

  lemma AddBijective(keys: seq<string>, byKey: map<string, int>, k: string)
    requires Bijective(keys, byKey) && k !in keys
    ensures Bijective(keys + [k], byKey[k := |keys| + 1])
  {
  }

  lemma RetargetBijective(keys: seq<string>, byKey: map<string, int>, i: nat, k: string)
    requires Bijective(keys, byKey) && i < |keys|
    requires forall j :: 0 <= j < |keys| && j != i ==> keys[j] != k
    ensures Bijective(keys[i := k], (byKey - {keys[i]})[k := i + 1])
  {
    var after := (byKey - {keys[i]})[k := i + 1];
    forall x | x in after ensures 1 <= after[x] <= |keys| && keys[i := k][after[x] - 1] == x {
      if x != k {
        assert keys[byKey[x] - 1] == x;
      }
    }
  }

  lemma CloseBijective(keys: seq<string>, byKey: map<string, int>, index: nat)
    requires Bijective(keys, byKey) && 1 <= index <= |keys|
    ensures Bijective(keys[..index - 1] + keys[index..], Renumbered(byKey - {keys[index - 1]}, index))
  {
    var after, map' := keys[..index - 1] + keys[index..], Renumbered(byKey - {keys[index - 1]}, index);
    forall i | 0 <= i < |after| ensures after[i] in map' && map'[after[i]] == i + 1 {
      var from := if i < index - 1 then i else i + 1;
      assert after[i] == keys[from] && byKey[keys[from]] == from + 1;
    }
    forall k | k in map' ensures 1 <= map'[k] <= |after| && after[map'[k] - 1] == k {
      assert keys[byKey[k] - 1] == k;
    }
  }

  lemma KeyAt(keys: seq<string>, byKey: map<string, int>, i: nat)
    requires Bijective(keys, byKey) && i < |keys|
    ensures keys[i] in byKey && byKey[keys[i]] == i + 1
  {
  }

  lemma AtKey(keys: seq<string>, byKey: map<string, int>, k: string)
    requires Bijective(keys, byKey) && k in byKey
    ensures 1 <= byKey[k] <= |keys| && keys[byKey[k] - 1] == k
  {
  }

  /** A key is in the map just when its target is in the list. */
  lemma KeyFound(ix: Index, t: Target)
    requires Inv(ix)
    ensures Key(t) in ix.byKey <==> t in ix.targets
    ensures Key(t) in ix.byKey ==> 1 <= ix.byKey[Key(t)] <= |ix.targets| && ix.targets[ix.byKey[Key(t)] - 1] == t
  {
    hide Key, WellFormed, Bijective;
    var keys := Keys(ix.targets);
    if t in ix.targets {
      var i :| 0 <= i < |ix.targets| && ix.targets[i] == t;
      KeyAt(keys, ix.byKey, i);
    }
    if Key(t) in ix.byKey {
      AtKey(keys, ix.byKey, Key(t));
      KeyInjective(ix.targets[ix.byKey[Key(t)] - 1], t);
    }
  }

  lemma KeysAdd(targets: seq<Target>, t: Target)
    ensures Keys(targets + [t]) == Keys(targets) + [Key(t)]
  {
  }

  lemma KeysUpdate(targets: seq<Target>, i: nat, t: Target)
    requires i < |targets|
    ensures Keys(targets[i := t]) == Keys(targets)[i := Key(t)]
    ensures Keys(targets)[i] == Key(targets[i])
  {
  }

  lemma KeysDrop(targets: seq<Target>, index: nat)
    requires 1 <= index <= |targets|
    ensures Keys(targets[..index - 1] + targets[index..]) == Keys(targets)[..index - 1] + Keys(targets)[index..]
    ensures Keys(targets)[index - 1] == Key(targets[index - 1])
  {
  }

  lemma KeyAbsent(targets: seq<Target>, t: Target)
    requires t !in targets
    ensures Key(t) !in Keys(targets)
  {
    hide Key;
    forall i | 0 <= i < |targets| ensures Keys(targets)[i] != Key(t) {
      if Key(targets[i]) == Key(t) { KeyInjective(targets[i], t); }
    }
  }

  lemma AddWellFormed(targets: seq<Target>, t: Target)
    requires WellFormed(targets) && !t.kind.Status? && Numbered(t)
    requires Shared(t.kind) ==> FindNumber(targets, t.kind, t.id) == |targets|
    ensures WellFormed(targets + [t])
  {
  }

  lemma AddKeepsInv(ix: Index, t: Target)
    requires Inv(ix) && !t.kind.Status? && Numbered(t) && t !in ix.targets
    requires Shared(t.kind) ==> FindNumber(ix.targets, t.kind, t.id) == |ix.targets|
    ensures Inv(Add(ix, t))
  {
    hide Bijective, WellFormed, FindNumber, Key;
    KeyAbsent(ix.targets, t);
    AddBijective(Keys(ix.targets), ix.byKey, Key(t));
    KeysAdd(ix.targets, t);
    AddWellFormed(ix.targets, t);
  }

  lemma RetargetWellFormed(targets: seq<Target>, t: Target)
    requires WellFormed(targets) && Shared(t.kind) && Numbered(t) && FindNumber(targets, t.kind, t.id) < |targets|
    ensures WellFormed(targets[FindNumber(targets, t.kind, t.id) := t])
  {
  }

  lemma OtherKeysDiffer(targets: seq<Target>, t: Target, j: nat)
    requires WellFormed(targets) && Shared(t.kind) && j < |targets| && j != FindNumber(targets, t.kind, t.id)
    ensures Keys(targets)[j] != Key(t)
  {
    var i := FindNumber(targets, t.kind, t.id);
    assert targets[j] != t by {
      assert i < |targets| && i < j ==> !(targets[i].kind == targets[j].kind && targets[i].id == targets[j].id);
    }
    if Key(targets[j]) == Key(t) {
      KeyInjective(targets[j], t);
    }
  }

  lemma RetargetKeepsInv(ix: Index, t: Target)
    requires Inv(ix) && Shared(t.kind) && Numbered(t) && FindNumber(ix.targets, t.kind, t.id) < |ix.targets|
    ensures Inv(Retarget(ix, FindNumber(ix.targets, t.kind, t.id), t))
  {
    hide Bijective, WellFormed;
    var i, keys, k := FindNumber(ix.targets, t.kind, t.id), Keys(ix.targets), Key(t);
    assert Bijective(keys[i := k], (ix.byKey - {keys[i]})[k := i + 1]) by {
      forall j | 0 <= j < |keys| && j != i ensures keys[j] != k {
        OtherKeysDiffer(ix.targets, t, j);
      }
      RetargetBijective(keys, ix.byKey, i, k);
    }
    KeysUpdate(ix.targets, i, t);
    assert WellFormed(ix.targets[i := t]) by {
      RetargetWellFormed(ix.targets, t);
    }
  }

  lemma EnsureKeepsInv(ix: Index, t: Target)
    requires Inv(ix) && Numbered(t)
    ensures Shared(t.kind) ==> Inv(EnsureShared(ix, t))
    ensures t.kind.Raw? ==> Inv(EnsureRaw(ix, t))
  {
    KeyFound(ix, t);
    if Shared(t.kind) {
      var i := FindNumber(ix.targets, t.kind, t.id);
      if i == |ix.targets| {
        AddKeepsInv(ix, t);
      } else {
        RetargetKeepsInv(ix, t);
      }
    } else if t.kind.Raw? && Key(t) !in ix.byKey {
      AddKeepsInv(ix, t);
    }
  }

  lemma CloseWellFormed(targets: seq<Target>, index: nat)
    requires WellFormed(targets) && 1 < index <= |targets|
    ensures WellFormed(targets[..index - 1] + targets[index..])
  {
    var after := targets[..index - 1] + targets[index..];
    forall i, j | 0 <= i < j < |after| && Shared(after[i].kind)
      ensures !(after[i].kind == after[j].kind && after[i].id == after[j].id)
    {
      assert after[i] == targets[if i < index - 1 then i else i + 1];
      assert after[j] == targets[if j < index - 1 then j else j + 1];
    }
  }

  lemma CloseKeepsInv(ix: Index, index: int)
    requires Inv(ix)
    ensures Inv(Close(ix, index))
  {
    hide Bijective, WellFormed;
    if CanClose(ix, index) {
      var keys, targets := Keys(ix.targets), ix.targets[..index - 1] + ix.targets[index..];
      CloseBijective(keys, ix.byKey, index);
      KeysDrop(ix.targets, index);
      CloseWellFormed(ix.targets, index);
      var after := Close(ix, index);
      assert after.targets == targets;
      assert after.byKey == Renumbered(ix.byKey - {keys[index - 1]}, index);
      assert Bijective(Keys(targets), after.byKey);
    }
  }

  lemma SelectKeepsInv(ix: Index, index: int, empty: bool)
    requires Inv(ix)
    ensures Inv(Select(ix, index, empty))
  {
    CloseKeepsInv(ix, ix.current);
  }

  /** Closing takes out just the one window: any other window `i` keeps its place in the order,
      and the focus stays on the window it was on, or goes to the one before the one closed. */
  lemma CloseKeepsFocus(ix: Index, index: int, i: int)
    requires Inv(ix) && CanClose(ix, index) && 1 <= i <= |ix.targets|
    ensures var r := Close(ix, index);
            && |r.targets| == |ix.targets| - 1
            && (i < index ==> r.targets[i - 1] == ix.targets[i - 1])
            && (index < i ==> r.targets[i - 2] == ix.targets[i - 1])
            && 1 <= r.current <= |r.targets|
            && r.targets[r.current - 1] == ix.targets[(if ix.current == index then index - 1 else ix.current) - 1]
  {
    CloseKeepsInv(ix, index);
  }

  /** Selecting number `index` ends on the window that had that number before, though leaving
      the old window may close it and renumber the others. */
  lemma SelectFindsTarget(ix: Index, index: int, empty: bool)
    requires Inv(ix) && 1 <= index <= |ix.targets|
    ensures var r := Select(ix, index, empty);
            1 <= r.current <= |r.targets| && r.targets[r.current - 1] == ix.targets[index - 1]
  {
    if Leaves(ix, index, empty) {
      CloseKeepsFocus(ix, ix.current, index);
    }
  }

  lemma StartInv()
    ensures Inv(START)
  {
    assert Keys(START.targets) == [Key(STATUS)];
  }

  /** In a well-formed list the window with a kind and number is the first one with them. */
  lemma NumberedOnce(targets: seq<Target>, kind: Kind, id: nat, i: nat)
    requires OnePerNumber(targets) && Shared(kind) && i < |targets|
    requires targets[i].kind == kind && targets[i].id == id
    ensures FindNumber(targets, kind, id) == i
  {
  }

  lemma MapInPlace(byKey: map<string, int>, k: string)
    requires k in byKey
    ensures (byKey - {k})[k := byKey[k]] == byKey
  {
  }

  lemma RetargetSame(ix: Index, i: nat, t: Target)
    requires i < |ix.targets| && ix.targets[i] == t
    requires Key(t) in ix.byKey && ix.byKey[Key(t)] == i + 1
    ensures Retarget(ix, i, t) == ix
  {
    MapInPlace(ix.byKey, Key(t));
    assert ix.targets[i := t] == ix.targets;
  }

  /** A window found under its own key is the one with its number, and stays as it is. */
  lemma FoundByKey(ix: Index, t: Target)
    requires Inv(ix) && Shared(t.kind) && Key(t) in ix.byKey
    ensures ix.byKey[Key(t)] == FindNumber(ix.targets, t.kind, t.id) + 1 <= |ix.targets|
    ensures EnsureShared(ix, t) == ix
  {
    KeyFound(ix, t);
    var i := ix.byKey[Key(t)] - 1;
    NumberedOnce(ix.targets, t.kind, t.id, i);
    RetargetSame(ix, i, t);
  }

  // -------------------------------------------------------------------- runs

  datatype Op =
    | OpenChannel(device: string, id: nat)
    | OpenDm(device: string, peer: nat)
    | OpenRaw(device: string)
    | OpenNodelist(device: string)
    | CloseWindow(index: int)
    | CloseIfEmpty(index: int, empty: bool)
    | SelectWindow(index: int, empty: bool)
    | Clear

  function Apply(ix: Index, op: Op): Index {
    match op
    case OpenChannel(d, id) => EnsureShared(ix, Target(d, Channel, id))
    case OpenDm(d, peer) => EnsureShared(ix, Target(d, Dm, peer))
    case OpenRaw(d) => EnsureRaw(ix, Target(d, Raw, 0))
    case OpenNodelist(d) => EnsureShared(ix, Target(d, Nodelist, 0))
    case CloseWindow(i) => Close(ix, i)
    case CloseIfEmpty(i, empty) =>
      if CanClose(ix, i) && empty && ClosesWhenEmpty(ix.targets[i - 1]) then Close(ix, i) else ix
    case SelectWindow(i, empty) => Select(ix, i, empty)
    case Clear => START
  }

  lemma ApplyKeepsInv(ix: Index, op: Op)
    requires Inv(ix)
    ensures Inv(Apply(ix, op))
  {
    hide Inv, EnsureShared, EnsureRaw, Close, Select, FindNumber, Key;
    match op {
      case OpenChannel(d, id) => EnsureKeepsInv(ix, Target(d, Channel, id));
      case OpenDm(d, peer) => EnsureKeepsInv(ix, Target(d, Dm, peer));
      case OpenRaw(d) => EnsureKeepsInv(ix, Target(d, Raw, 0));
      case OpenNodelist(d) => EnsureKeepsInv(ix, Target(d, Nodelist, 0));
      case CloseWindow(i) => CloseKeepsInv(ix, i);
      case CloseIfEmpty(i, empty) => CloseKeepsInv(ix, i);
      case SelectWindow(i, empty) => SelectKeepsInv(ix, i, empty);
      case Clear => StartInv();
    }
  }

  function ApplyAll(ix: Index, ops: seq<Op>): Index
    decreases |ops|
  {
    if ops == [] then ix else ApplyAll(Apply(ix, ops[0]), ops[1..])
  }

  /** The index agrees with the windows after any sequence of operations, whatever windows
      happened to be empty: the map is a bijection between keys and positions, window 1 is
      the status window, the focus is in range, and a channel number, a peer and the node
      list have at most one window each. */
  lemma {:induction false} EveryRunKeepsInv(ix: Index, ops: seq<Op>)
    requires Inv(ix)
    ensures Inv(ApplyAll(ix, ops))
    decreases |ops|
  {
    if ops != [] {
      ApplyKeepsInv(ix, ops[0]);
      EveryRunKeepsInv(Apply(ix, ops[0]), ops[1..]);
    }
  }
}
