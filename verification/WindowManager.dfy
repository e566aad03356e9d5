/** The window manager: the windows themselves, kept in step with the index. */
module WindowManager {
  import opened Strings
  import opened WindowIndex

  class Window {
    var target: Target
    var title: string
    var lines: seq<string>
    var activity: nat
    var unread: nat
    var scrollOffset: nat

    constructor (target: Target, title: string, lines: seq<string>)
      ensures this.target == target && this.title == title && this.lines == lines
      ensures activity == 0 && unread == 0 && scrollOffset == 0
    {
      this.target, this.title, this.lines := target, title, lines;
      activity, unread, scrollOffset := 0, 0, 0;
    }

    /** A window found again: a title for it, and its stored lines if it shows none. */
    method Refresh(newTitle: string, history: seq<string>)
      modifies this`title, this`lines
      ensures title == newTitle
      ensures lines == if old(lines) == [] then history else old(lines)
    {
      title := newTitle;
      if lines == [] {
        lines := history;
      }
    }

    method MarkRead()
      modifies this`unread, this`activity
      ensures unread == 0 && activity == 0
    {
      unread, activity := 0, 0;
    }
  }

  /** The title a channel gets when it has no name: "#ch" and a digit. */
  predicate UnnamedChannel(title: string) {
    |title| > 3 && title[..3] == "#ch" && IsDigit(title[3])
  }

  /** What is closed when it is left: a DM or an unnamed channel, without any lines. */
  predicate LeftEmpty(kind: Kind, title: string, lines: seq<string>) {
    lines == [] && (kind.Dm? || (kind.Channel? && UnnamedChannel(title)))
  }

  /** The list without number `at` if that is gone, and the same list otherwise. */
  function Remaining<T>(list: seq<T>, at: int, gone: bool): seq<T> {
    if gone && 1 <= at <= |list| then list[..at - 1] + list[at..] else list
  }

  ghost predicate Distinct<T>(list: seq<T>) {
    forall i, j :: 0 <= i < j < |list| ==> list[i] != list[j]
  }

  lemma RemainingDistinct<T>(list: seq<T>, at: int)
    requires Distinct(list)
    ensures Distinct(Remaining(list, at, true))
  {
  }

  /** The number, if there is one like that, is that of the goal. */
  ghost predicate NumberIs<T>(list: seq<T>, number: int, goal: T) {
    1 <= number <= |list| ==> list[number - 1] == goal
  }

  /** What leaving a window means for the index, the list and the number of any other window. */
  lemma AfterLeaving<T>(ix: Index, was: seq<T>, now: seq<T>, index: int, goal: T, closed: bool, empty: bool)
    requires empty ==> CanClose(ix, ix.current) && ClosesWhenEmpty(ix.targets[ix.current - 1])
    requires (closed <==> empty && index != ix.current) && now == Remaining(was, ix.current, closed)
    requires NumberIs(was, index, goal)
    ensures Leave(ix, index, empty) == if closed then Close(ix, ix.current) else ix
    ensures NumberAfterLeaving(ix, index, empty) == if closed && ix.current < index then index - 1 else index
    ensures now == Remaining(was, ix.current, empty && index != ix.current)
    ensures var number := NumberAfterLeaving(ix, index, empty);
            && (1 <= index <= |was| ==> 1 <= number <= |now|)
            && NumberIs(now, number, goal)
  {
  }

  /** A title that is no placeholder: neither empty nor a node number or question mark. */
  predicate ShowsName(title: string) {
    title != "" && title[0] != '!' && title[0] != '?'
  }

  /** The title of a DM: kept if the new one would put a placeholder over a real name. */
  function DmTitle(shown: string, nick: string, title: string): string {
    var oldIsPlaceholder := shown == "" || shown[0] == '!' || shown[0] == '?';
    var newIsPlaceholder := nick == "?";
    if nick != "" && (oldIsPlaceholder || !newIsPlaceholder) then title else shown
  }

  /** A nick a peer is asked for under, and the title made of it. */
  datatype Naming = Naming(nick: string, title: string)

  predicate Nameless(n: Naming) {
    n.nick == "" || n.nick == "?"
  }

  /** The title after a window was asked for again and again. */
  function Retitled(shown: string, calls: seq<Naming>): string
    decreases |calls|
  {
    if calls == [] then shown else Retitled(DmTitle(shown, calls[0].nick, calls[0].title), calls[1..])
  }

  /** A name, once shown, is shown until another one comes, and a new one is shown at once. */
  lemma {:induction false} LastNameIsShown(shown: string, calls: seq<Naming>, k: nat)
    requires k <= |calls| && (forall i :: k <= i < |calls| ==> Nameless(calls[i]))
    requires ShowsName(if k == 0 then shown else calls[k - 1].title) && (k > 0 ==> !Nameless(calls[k - 1]))
    ensures Retitled(shown, calls) == if k == 0 then shown else calls[k - 1].title
    decreases |calls|
  {
    if calls != [] {
      var next := DmTitle(shown, calls[0].nick, calls[0].title);
      LastNameIsShown(next, calls[1..], if k == 0 then 0 else k - 1);
    }
  }

  lemma Product(k: int, n: nat)
    ensures k >= 1 ==> k * n >= n
    ensures k <= -1 ==> k * n + n <= 0
  {
    if k >= 1 {
      assert k * n == (k - 1) * n + n;
    } else if k <= -1 {
      assert k * n == (k + 1) * n - n;
    }
  }

  lemma OnceRound(x: nat, n: nat)
    requires 0 < n && x < 2 * n
    ensures x % n == if x < n then x else x - n
  {
    var q, r := x / n, if x < n then 0 else 1;
    Product(q - r, n);
    assert (q - r) * n == q * n - r * n;
  }

  /** The number `i` windows further on, round the end of the list. */
  function Ahead(current: int, i: int, n: int): (number: int)
    requires 1 <= current <= n && 1 <= i <= n
    ensures number == if current + i <= n then current + i else current + i - n
  {
    OnceRound(current - 1 + i, n);
    (current - 1 + i) % n + 1
  }

  class Manager {
    var windows: seq<Window>
    var byKey: map<string, int>
    var current: int

    function Targets(): (ts: seq<Target>)
      reads this, windows
      ensures |ts| == |windows|
      ensures forall i :: 0 <= i < |windows| ==> ts[i] == windows[i].target
    {
      seq(|windows|, i requires 0 <= i < |windows| reads this, windows => windows[i].target)
    }

    function Snapshot(): Index
      reads this, windows
    {
      Index(Targets(), byKey, current)
    }

    ghost predicate Valid()
      reads this, windows
    {
      && Distinct(windows)
      && Inv(Snapshot())
    }

    /** The window is focused, scrolled to the bottom and read. */
    predicate Focused(w: Window)
      reads this, w
    {
      1 <= current <= |windows| && windows[current - 1] == w
      && w.activity == 0 && w.unread == 0 && w.scrollOffset == 0
    }

    constructor ()
      ensures Valid() && Snapshot() == START && fresh(windows)
      ensures |windows| == 1 && windows[0].title == "status" && windows[0].lines == []
    {
      var w := new Window(STATUS, "status", []);
      windows := [w];
      byKey := map[Key(STATUS) := 1];
      current := 1;
      new;
      assert Targets() == [STATUS];
      StartInv();
    }

    /** Put window `i` under a new target. */
    method Rekey(i: nat, t: Target)
      requires Valid() && i < |windows|
      modifies this`byKey, windows`target
      ensures Snapshot() == Retarget(old(Snapshot()), i, t)
      ensures windows[i].target == t
    {
      ghost var targets := Targets();
      byKey := (byKey - {Key(windows[i].target)})[Key(t) := i + 1];
      windows[i].target := t;
      assert Targets() == targets[i := t];
    }

    /** The node list is looked for by its kind alone. */
    method FindByNumber(kind: Kind, id: nat) returns (i: nat)
      requires Valid() && Shared(kind) && (kind.Nodelist? ==> id == 0)
      ensures i == FindNumber(Targets(), kind, id)
    {
      i := 0;
      while i < |windows|
        invariant 0 <= i <= |windows|
        invariant forall j :: 0 <= j < i ==> !(Targets()[j].kind == kind && Targets()[j].id == id)
      {
        assert Numbered(Targets()[i]);
        if windows[i].target.kind == kind && (kind.Nodelist? || windows[i].target.id == id) {
          NumberedOnce(Targets(), kind, id, i);
          return;
        }
        i := i + 1;
      }
    }

    /** Look for the window of a target: under its own key, under the key without a device,
        then by kind and number; in the last two cases it moves under the target's key.
        Zero when there is none. */
    method Locate(t: Target, tryEmptyDevice: bool) returns (pos: nat, known: bool)
      requires Valid() && Shared(t.kind) && Numbered(t)
      modifies this`byKey, windows`target
      ensures windows == old(windows)
      ensures pos == 0 ==> FindNumber(old(Targets()), t.kind, t.id) == |windows| && Snapshot() == old(Snapshot())
      ensures pos > 0 ==> pos == FindNumber(old(Targets()), t.kind, t.id) + 1 <= |windows|
      ensures pos > 0 ==> Snapshot() == EnsureShared(old(Snapshot()), t)
      ensures known <==> t in old(Targets())
    {
      hide Distinct, Bijective, WellFormed, FindNumber, Key, Keys;
      ghost var ix := Snapshot();
      KeyFound(ix, t);
      var key, bare := Key(t), t.(device := "");
      known := key in byKey;
      if known {
        FoundByKey(ix, t);
        pos := byKey[key];
        return;
      }
      if tryEmptyDevice && Key(bare) in byKey {
        FoundByKey(ix, bare);
        KeyFound(ix, bare);
        pos := byKey[Key(bare)];
        Rekey(pos - 1, t);
        return;
      }
      var i := FindByNumber(t.kind, t.id);
      if i < |windows| {
        Rekey(i, t);
        return i + 1, known;
      }
      return 0, known;
    }

    /** A new window at the end of the list. */
    method AddWindow(t: Target, title: string, lines: seq<string>) returns (w: Window)
      requires Valid() && !t.kind.Status? && Numbered(t) && t !in Targets()
      requires Shared(t.kind) ==> FindNumber(Targets(), t.kind, t.id) == |windows|
      modifies this`windows, this`byKey
      ensures Valid() && Snapshot() == Add(old(Snapshot()), t)
      ensures fresh(w) && windows == old(windows) + [w]
      ensures w.target == t && w.title == title && w.lines == lines
      ensures w.activity == 0 && w.unread == 0 && w.scrollOffset == 0
    {
      hide Bijective, WellFormed, FindNumber;
      ghost var ix := Snapshot();
      AddKeepsInv(ix, t);
      w := new Window(t, title, lines);
      byKey := byKey[Key(t) := |windows| + 1];
      windows := windows + [w];
      assert Targets() == ix.targets + [t];
    }

    /** A found window gets a title and its history; nothing else changes. */
    method RefreshWindow(pos: nat, newTitle: string, history: seq<string>)
      requires Valid() && 1 <= pos <= |windows|
      modifies windows`title, windows`lines
      ensures Valid() && Snapshot() == old(Snapshot())
      ensures windows[pos - 1].title == newTitle
      ensures windows[pos - 1].lines ==
                if old(windows[pos - 1].lines) == [] then history else old(windows[pos - 1].lines)
      ensures forall w :: w in windows && w != windows[pos - 1] ==>
                w.title == old(w.title) && w.lines == old(w.lines)
    {
      ghost var targets := Targets();
      windows[pos - 1].Refresh(newTitle, history);
      assert Targets() == targets;
    }

    /** The window for a channel.  An existing one is renamed only when a name came, and is
        filled from the stored history only when it is empty. */
    method EnsureChannel(device: string, id: nat, name: string, title: string, history: seq<string>) returns (pos: nat)
      requires Valid()
      modifies this`windows, this`byKey, windows`target, windows`title, windows`lines
      ensures Valid() && Snapshot() == EnsureShared(old(Snapshot()), Target(device, Channel, id))
      ensures pos == FindNumber(old(Targets()), Channel, id) + 1 <= |windows|
      ensures windows[pos - 1].target == Target(device, Channel, id)
      ensures windows == if pos <= |old(windows)| then old(windows) else old(windows) + [windows[pos - 1]]
      ensures pos <= |old(windows)| ==>
                windows[pos - 1].title == if name != "" then title else old(windows[pos - 1].title)
      ensures pos <= |old(windows)| ==>
                windows[pos - 1].lines ==
                  if old(windows[pos - 1].lines) == [] then history else old(windows[pos - 1].lines)
      ensures pos > |old(windows)| ==>
                fresh(windows[pos - 1]) && windows[pos - 1].title == title && windows[pos - 1].lines == history
      ensures forall w :: w in old(windows) && w != windows[pos - 1] ==>
                w.title == old(w.title) && w.lines == old(w.lines)
    {
      hide Bijective, WellFormed, Key;
      var t := Target(device, Channel, id);
      EnsureKeepsInv(Snapshot(), t);
      var known;
      pos, known := Locate(t, true);
      if pos == 0 {
        assert t !in Targets();
        var w := AddWindow(t, title, history);
        return |windows|;
      }
      RefreshWindow(pos, if name != "" then title else windows[pos - 1].title, history);
    }

    /** The window for a peer.  One found under its own key keeps a real name against a
        placeholder; one that moves under the key is renamed whenever a nick came. */
    method EnsureDm(device: string, peer: nat, nick: string, title: string, history: seq<string>) returns (pos: nat)
      requires Valid()
      modifies this`windows, this`byKey, windows`target, windows`title, windows`lines
      ensures Valid() && Snapshot() == EnsureShared(old(Snapshot()), Target(device, Dm, peer))
      ensures pos == FindNumber(old(Targets()), Dm, peer) + 1 <= |windows|
      ensures windows[pos - 1].target == Target(device, Dm, peer)
      ensures windows == if pos <= |old(windows)| then old(windows) else old(windows) + [windows[pos - 1]]
      ensures pos <= |old(windows)| && nick == "" ==> windows[pos - 1].title == old(windows[pos - 1].title)
      ensures pos <= |old(windows)| && nick != "" && Target(device, Dm, peer) !in old(Targets()) ==>
                windows[pos - 1].title == title
      ensures pos <= |old(windows)| && nick != "" && Target(device, Dm, peer) in old(Targets()) ==>
                windows[pos - 1].title ==
                  if nick == "?" && ShowsName(old(windows[pos - 1].title)) then old(windows[pos - 1].title) else title
      ensures pos <= |old(windows)| ==>
                windows[pos - 1].lines ==
                  if old(windows[pos - 1].lines) == [] then history else old(windows[pos - 1].lines)
      ensures pos > |old(windows)| ==>
                fresh(windows[pos - 1]) && windows[pos - 1].title == title && windows[pos - 1].lines == history
      ensures forall w :: w in old(windows) && w != windows[pos - 1] ==>
                w.title == old(w.title) && w.lines == old(w.lines)
    {
      hide Bijective, WellFormed, Key;
      var t := Target(device, Dm, peer);
      EnsureKeepsInv(Snapshot(), t);
      var known;
      pos, known := Locate(t, true);
      if pos == 0 {
        assert t !in Targets();
        var w := AddWindow(t, title, history);
        return |windows|;
      }
      var shown := windows[pos - 1].title;
      RefreshWindow(pos, if known then DmTitle(shown, nick, title) else if nick != "" then title else shown, history);
    }

    /** The one node list window, wherever it was opened.  One found under its own key stays
        as it is, one of another device moves under the key and is renamed. */
    method EnsureNodelist(device: string, title: string) returns (pos: nat)
      requires Valid()
      modifies this`windows, this`byKey, windows`target, windows`title, windows`lines
      ensures Valid() && Snapshot() == EnsureShared(old(Snapshot()), Target(device, Nodelist, 0))
      ensures pos == FindNumber(old(Targets()), Nodelist, 0) + 1 <= |windows|
      ensures windows == if pos <= |old(windows)| then old(windows) else old(windows) + [windows[pos - 1]]
      ensures forall i :: 0 <= i < |windows| && i != pos - 1 ==> !windows[i].target.kind.Nodelist?
      ensures windows[pos - 1].target == Target(device, Nodelist, 0)
      ensures Target(device, Nodelist, 0) !in old(Targets()) ==> windows[pos - 1].title == title
      ensures Target(device, Nodelist, 0) in old(Targets()) ==>
                pos <= |old(windows)| && windows[pos - 1].title == old(windows[pos - 1].title)
      ensures forall w :: w in old(windows) && w != windows[pos - 1] ==> w.title == old(w.title)
      ensures forall w :: w in old(windows) ==> w.lines == old(w.lines)
      ensures pos > |old(windows)| ==> fresh(windows[pos - 1]) && windows[pos - 1].lines == []
    {
      hide Bijective, WellFormed, Key, FindNumber;
      var t := Target(device, Nodelist, 0);
      EnsureKeepsInv(Snapshot(), t);
      var known;
      pos, known := Locate(t, false);
      if pos == 0 {
        assert t !in Targets();
        var w := AddWindow(t, title, []);
        pos := |windows|;
      } else if !known {
        RefreshWindow(pos, title, windows[pos - 1].lines);
      }
      assert Targets()[pos - 1] == t;
      OneNodelist(Targets(), pos - 1);
    }

    method EnsureRaw(device: string) returns (pos: nat)
      requires Valid()
      modifies this`windows, this`byKey
      ensures Valid() && Snapshot() == WindowIndex.EnsureRaw(old(Snapshot()), Target(device, Raw, 0))
      ensures 1 <= pos <= |windows| && windows[pos - 1].target == Target(device, Raw, 0)
      ensures windows == if pos <= |old(windows)| then old(windows) else old(windows) + [windows[pos - 1]]
      ensures pos > |old(windows)| ==>
                fresh(windows[pos - 1]) && windows[pos - 1].title == "raw" && windows[pos - 1].lines == []
    {
      hide Bijective, WellFormed;
      var t := Target(device, Raw, 0);
      KeyFound(Snapshot(), t);
      if Key(t) in byKey {
        return byKey[Key(t)];
      }
      var w := AddWindow(t, "raw", []);
      return |windows|;
    }

    /** Every number above the closed one goes down by one. */
    method Renumber(index: int)
      modifies this`byKey
      ensures byKey == Renumbered(old(byKey), index)
    {
      ghost var before := byKey;
      var todo := byKey.Keys;
      while todo != {}
        invariant todo <= before.Keys == byKey.Keys
        invariant forall k :: k in todo ==> byKey[k] == before[k]
        invariant forall k :: k in before.Keys - todo ==> byKey[k] == Renumbered(before, index)[k]
        decreases |todo|
      {
        var k :| k in todo;
        if byKey[k] > index {
          byKey := byKey[k := byKey[k] - 1];
        }
        todo := todo - {k};
      }
    }

    /** Take a window out of the list and the map. */
    method RemoveAt(index: int)
      requires 1 <= index <= |windows|
      modifies this`windows, this`byKey
      ensures windows == old(windows)[..index - 1] + old(windows)[index..]
      ensures Targets() == old(Targets())[..index - 1] + old(Targets())[index..]
      ensures byKey == Renumbered(old(byKey) - {Key(old(Targets())[index - 1])}, index)
    {
      byKey := byKey - {Key(windows[index - 1].target)};
      windows := windows[..index - 1] + windows[index..];
      Renumber(index);
    }

    method MarkCurrentRead(w: Window)
      requires Valid() && windows[current - 1] == w
      modifies w`unread, w`activity
      ensures Valid() && Snapshot() == old(Snapshot())
      ensures w.unread == 0 && w.activity == 0
    {
      ghost var targets := Targets();
      w.MarkRead();
      assert Targets() == targets;
    }

    /** Take a window out and move the focus number with it. */
    method Drop(index: int) returns (focused: Window)
      requires 1 < index <= |windows| && 1 <= current <= |windows| && Distinct(windows)
      modifies this
      ensures windows == Remaining(old(windows), index, true) && Distinct(windows)
      ensures Snapshot() == Close(old(Snapshot()), index)
      ensures focused == old(windows)[(if old(current) == index then index - 1 else old(current)) - 1]
      ensures focused in old(windows) && 1 <= current <= |windows| && windows[current - 1] == focused
      ensures old(current) == index ==> current == index - 1
    {
      focused := windows[(if current == index then index - 1 else current) - 1];
      assert focused in windows;
      RemainingDistinct(windows, index);
      hide Distinct;
      ghost var before := current;
      RemoveAt(index);
      if current == index {
        current := if index - 1 > 1 then index - 1 else 1;
      } else if current > index {
        current := current - 1;
      }
      assert current == FocusAfterClose(before, index);
      current := if current > |windows| then |windows| else current;
    }

    /** Closing keeps the order of the other windows, and the focus stays on the same window
        unless that is the one closed. */
    method CloseWindow(index: int) returns (closed: bool)
      requires Valid()
      modifies this, windows`unread, windows`activity
      ensures Valid() && Snapshot() == Close(old(Snapshot()), index)
      ensures closed <==> 1 < index <= |old(windows)|
      ensures windows == Remaining(old(windows), index, closed)
      ensures closed && old(current) != index ==> windows[current - 1] == old(windows[current - 1])
      ensures closed && old(current) == index ==> current == index - 1
      ensures closed ==> windows[current - 1].unread == 0 && windows[current - 1].activity == 0
      ensures !closed ==> current == old(current)
    {
      assert 1 <= current <= |windows|;
      assert index <= 1 || index > |windows| ==> Close(Snapshot(), index) == Snapshot();
      assert Remaining(windows, index, false) == windows;
      CloseKeepsInv(Snapshot(), index);
      hide *;
      if index <= 1 || index > |windows| {
        return false;
      }
      var focused := Drop(index);
      MarkCurrentRead(focused);
      return true;
    }

    /** A DM goes when it has no lines, and so does a channel titled "#ch" and a digit; a window
        with lines, a named channel, the status window, a raw one and the node list stay. */
    method CloseIfEmpty(index: int) returns (closed: bool)
      requires Valid()
      modifies this, windows`unread, windows`activity
      ensures Valid()
      ensures closed <==>
                && 1 < index <= |old(windows)| && old(windows)[index - 1].lines == []
                && (old(windows)[index - 1].target.kind.Dm?
                    || (old(windows)[index - 1].target.kind.Channel?
                        && |old(windows)[index - 1].title| > 3 && old(windows)[index - 1].title[..3] == "#ch"
                        && '0' <= old(windows)[index - 1].title[3] <= '9'))
      ensures Snapshot() == if closed then Close(old(Snapshot()), index) else old(Snapshot())
      ensures windows == Remaining(old(windows), index, closed)
      ensures closed && old(current) != index ==> windows[current - 1] == old(windows[current - 1])
      ensures !closed ==> forall w :: w in windows ==> w.activity == old(w.activity) && w.unread == old(w.unread)
    {
      assert Remaining(windows, index, false) == windows;
      hide Inv, Close, Remaining;
      if index <= 1 || index > |windows| {
        return false;
      }
      var w := windows[index - 1];
      if w.lines != [] {
        return false;
      }
      var isEmptyDm := w.target.kind.Dm?;
      var isUnnamedChannel := w.target.kind.Channel? && UnnamedChannel(w.title);
      if !isEmptyDm && !isUnnamedChannel {
        return false;
      }
      closed := CloseWindow(index);
    }

    /** Focus a window by number; an unknown number changes nothing. */
    method Focus(number: int, ghost goal: Window)
      requires Valid() && NumberIs(windows, number, goal)
      modifies this`current, goal`unread, goal`activity, goal`scrollOffset
      ensures Valid()
      ensures Snapshot() == if 1 <= number <= |windows| then old(Snapshot()).(current := number) else old(Snapshot())
      ensures 1 <= number <= |windows| ==> Focused(goal)
    {
      if number < 1 || number > |windows| {
        return;
      }
      ghost var targets := Targets();
      current := number;
      windows[current - 1].scrollOffset := 0;
      windows[current - 1].MarkRead();
      assert Targets() == targets;
    }

    /** Close the current window if it is left with nothing in it; the `goal` that had number
        `index` has `number` then. */
    method LeaveCurrent(index: int, ghost goal: Window) returns (number: int, ghost empty: bool)
      requires Valid() && NumberIs(windows, index, goal)
      modifies this, windows`unread, windows`activity
      ensures Valid()
      ensures empty == LeftEmpty(old(windows[current - 1].target.kind), old(windows[current - 1].title),
                                 old(windows[current - 1].lines))
      ensures Snapshot() == Leave(old(Snapshot()), index, empty)
      ensures number == NumberAfterLeaving(old(Snapshot()), index, empty)
      ensures windows == Remaining(old(windows), old(current), empty && index != old(current))
      ensures 1 <= index <= |old(windows)| ==> 1 <= number <= |windows|
      ensures NumberIs(windows, number, goal)
    {
      ghost var ix, was, w := Snapshot(), windows, windows[current - 1];
      empty := LeftEmpty(w.target.kind, w.title, w.lines);
      assert Targets()[0] == STATUS && Targets()[current - 1] == w.target;
      assert Remaining(windows, current, false) == windows;
      assert empty ==> CanClose(ix, current) && ClosesWhenEmpty(ix.targets[current - 1]);
      hide Inv, Close, Leave, NumberAfterLeaving, Remaining, NumberIs;
      number := index;
      var closed := false;
      if current != index {
        var oldCurrent := current;
        closed := CloseIfEmpty(oldCurrent);
        if closed && oldCurrent < index {
          number := index - 1;
        }
      }
      AfterLeaving(ix, was, windows, index, goal, closed, empty);
    }

    /** The focus ends on the very window that had the number before the call, even when the
        window left behind is closed and everything is renumbered; that happens when it is left
        and is `empty`. */
    method Select(index: int) returns (ghost empty: bool)
      requires Valid()
      modifies this, windows`unread, windows`activity, windows`scrollOffset
      ensures Valid()
      ensures empty <==>
                && old(windows[current - 1].lines) == []
                && (old(windows[current - 1].target.kind).Dm?
                    || (old(windows[current - 1].target.kind).Channel?
                        && |old(windows[current - 1].title)| > 3
                        && old(windows[current - 1].title)[..3] == "#ch"
                        && '0' <= old(windows[current - 1].title)[3] <= '9'))
      ensures Snapshot() == WindowIndex.Select(old(Snapshot()), index, empty)
      ensures windows == Remaining(old(windows), old(current), empty && index != old(current))
      ensures 1 <= index <= |old(windows)| ==> Focused(old(windows)[index - 1])
    {
      assert 1 <= current <= |windows|;
      hide Inv, Close, Leave, NumberAfterLeaving, Remaining;
      ghost var goal := windows[if 1 <= index <= |windows| then index - 1 else 0];
      assert goal in windows;
      var number, isEmpty := LeaveCurrent(index, goal);
      Focus(number, goal);
      empty := isEmpty;
    }

    /** The first window with activity behind the current one, or else from the start of the
        list up to it; zero when no window has any. */
    method NextActive() returns (found: nat)
      requires Valid()
      ensures found == 0 ==> forall p :: 0 <= p < |windows| ==> windows[p].activity == 0
      ensures found > 0 ==> found <= |windows| && windows[found - 1].activity > 0
      ensures found > current ==> forall p :: current <= p < found - 1 ==> windows[p].activity == 0
      ensures 0 < found <= current ==>
                forall p :: 0 <= p < |windows| && (p < found - 1 || p >= current) ==> windows[p].activity == 0
    {
      assert 1 <= current <= |windows|;
      hide *;
      var n := |windows|;
      var i := 1;
      while i <= n
        invariant 1 <= i <= n + 1
        invariant forall p :: current <= p < n && p < current + i - 1 ==> windows[p].activity == 0
        invariant forall p :: 0 <= p < current + i - 1 - n ==> windows[p].activity == 0
      {
        var index := Ahead(current, i, n);
        if windows[index - 1].activity > 0 {
          return index;
        }
        i := i + 1;
      }
      return 0;
    }

    /** Go to the next window with activity, if there is one. */
    method SelectNextActive() returns (found: nat)
      requires Valid()
      modifies this, windows`unread, windows`activity, windows`scrollOffset
      ensures Valid()
      ensures found == 0 ==>
                && (forall p :: 0 <= p < |old(windows)| ==> old(windows[p].activity) == 0)
                && Snapshot() == old(Snapshot()) && windows == old(windows)
      ensures found > 0 ==>
                && found <= |old(windows)| && old(windows[found - 1].activity) > 0
                && Focused(old(windows)[found - 1])
      ensures found > old(current) ==>
                forall p :: old(current) <= p < found - 1 ==> old(windows[p].activity) == 0
      ensures 0 < found <= old(current) ==>
                forall p :: 0 <= p < |old(windows)| && (p < found - 1 || p >= old(current)) ==>
                  old(windows[p].activity) == 0
    {
      assert 1 <= current <= |windows|;
      hide *;
      found := NextActive();
      if found > 0 {
        var _ := Select(found);
      }
    }

    /** Back to the status window alone. */
    method Clear()
      modifies this
      ensures Valid() && Snapshot() == START && fresh(windows)
      ensures |windows| == 1 && windows[0].title == "status" && windows[0].lines == []
    {
      windows := [];
      byKey := map[];
      current := 1;
      var w := new Window(STATUS, "status", []);
      byKey := map[Key(STATUS) := 1];
      windows := [w];
      assert Targets() == [STATUS];
      StartInv();
    }
  }
}
