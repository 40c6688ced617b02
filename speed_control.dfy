/** The video player's playback-speed menu: a control (an anchor that opens
    and closes a menu) above a list of speed entries, one per available
    speed. The DOM is abstracted to the state the handlers read and write:
    whether the menu is open, where the keyboard focus is, the rendered
    entries in document order with their 'active' flags, the current speed,
    the label of the control and the speed-change events fired. */
module SpeedControl {
  import opened Wrappers

  // jQuery UI key codes ($.ui.keyCode).
  const TAB: int := 9
  const ENTER: int := 13
  const ESCAPE: int := 27
  const SPACE: int := 32
  const UP: int := 38
  const DOWN: int := 40

  /** A speed as written in an entry's data-speed attribute, e.g. "0.75". */
  type Speed = string

  /** One rendered list entry (an <li data-speed=...> holding a link). */
  datatype Item = Item(speed: Speed, active: bool)

  /** Where the keyboard focus is: the menu's control anchor, the link of
      the entry at an index (in document order), or anywhere else. */
  datatype Focus = Control | Entry(index: nat) | Elsewhere

  // ---------------------------------------------------------------------
  // Cyclic movement over the entries
  // ---------------------------------------------------------------------

  /** The entry above `index` in a list of `n` entries, wrapping from the
      first entry to the last. */
  function PreviousIndex(n: nat, index: nat): (r: nat)
    requires index < n
    ensures r < n
    ensures (r + 1) % n == index
  {
    if index == 0 then
      assert (n - 1 + 1) % n == n % n == 0;
      n - 1
    else
      assert (index - 1 + 1) % n == index % n == index;
      index - 1
  }

  /** The entry below `index` in a list of `n` entries, wrapping from the
      last entry to the first. */
  function NextIndex(n: nat, index: nat): (r: nat)
    requires index < n
    ensures r < n
    ensures r == (index + 1) % n
  {
    if index == n - 1 then
      assert (index + 1) % n == n % n == 0;
      0
    else
      assert (index + 1) % n == index + 1;
      index + 1
  }

  /** Moving down then up, or up then down, lands on the same entry. */
  lemma PreviousNextInverse(n: nat, index: nat)
    requires index < n
    ensures PreviousIndex(n, NextIndex(n, index)) == index
    ensures NextIndex(n, PreviousIndex(n, index)) == index
  {
  }

  /** The entry reached from `index` after `k` presses of DOWN. */
  function NextTimes(n: nat, index: nat, k: nat): (r: nat)
    requires index < n
    ensures r < n
  {
    if k == 0 then index else NextIndex(n, NextTimes(n, index, k - 1))
  }

  /** The entry reached from `index` after `k` presses of UP. */
  function PreviousTimes(n: nat, index: nat, k: nat): (r: nat)
    requires index < n
    ensures r < n
  {
    if k == 0 then index else PreviousIndex(n, PreviousTimes(n, index, k - 1))
  }

  /** Pressing DOWN k times from `index` moves k entries down while the
      end of the list is not passed. */
  lemma {:induction false} NextTimesAdvances(n: nat, index: nat, k: nat)
    requires index + k < n
    ensures NextTimes(n, index, k) == index + k
  {
    if k > 0 {
      NextTimesAdvances(n, index, k - 1);
    }
  }

  /** Pressing DOWN a times and then b times is pressing it a + b times. */
  lemma {:induction false} NextTimesCompose(n: nat, index: nat, a: nat, b: nat)
    requires index < n
    ensures NextTimes(n, NextTimes(n, index, a), b) == NextTimes(n, index, a + b)
  {
    if b > 0 {
      NextTimesCompose(n, index, a, b - 1);
    }
  }

  /** Pressing UP k times and then DOWN k times returns to the start. */
  lemma {:induction false} PreviousThenNextTimes(n: nat, index: nat, k: nat)
    requires index < n
    ensures NextTimes(n, PreviousTimes(n, index, k), k) == index
  {
    if k > 0 {
      var p := PreviousTimes(n, index, k - 1);
      NextTimesShift(n, PreviousIndex(n, p), k - 1);
      PreviousNextInverse(n, p);
      PreviousThenNextTimes(n, index, k - 1);
    }
  }

  /** Cycling through all n entries, with DOWN or with UP, comes back to
      the entry it started from. */
  lemma FullCycleReturns(n: nat, index: nat)
    requires index < n
    ensures NextTimes(n, index, n) == index
    ensures PreviousTimes(n, index, n) == index
  {
    NextCycle(n, index);
    var p := PreviousTimes(n, index, n);
    NextCycle(n, p);
    PreviousThenNextTimes(n, index, n);
  }

  lemma NextCycle(n: nat, index: nat)
    requires index < n
    ensures NextTimes(n, index, n) == index
  {
    NextTimesAdvances(n, index, n - 1 - index);
    NextTimesCompose(n, index, n - 1 - index, 1 + index);
    NextTimesCompose(n, n - 1, 1, index);
    NextTimesAdvances(n, 0, index);
  }

  /** DOWN k times after one more DOWN is one more DOWN after k times. */
  lemma {:induction false} NextTimesShift(n: nat, index: nat, k: nat)
    requires index < n
    ensures NextTimes(n, NextIndex(n, index), k) == NextIndex(n, NextTimes(n, index, k))
  {
    if k > 0 {
      NextTimesShift(n, index, k - 1);
    }
  }

  // ---------------------------------------------------------------------
  // Rendering order
  // ---------------------------------------------------------------------

  /** The sequence read back to front. */
  function Reverse<T>(s: seq<T>): seq<T>
  {
    if s == [] then [] else [s[|s| - 1]] + Reverse(s[..|s| - 1])
  }

  lemma {:induction false} ReverseAt<T>(s: seq<T>, k: nat)
    requires k < |s|
    ensures |Reverse(s)| == |s|
    ensures Reverse(s)[k] == s[|s| - 1 - k]
  {
    if k > 0 {
      ReverseAt(s[..|s| - 1], k - 1);
    } else if |s| > 1 {
      ReverseAt(s[..|s| - 1], 0);
    } else {
      assert Reverse(s[..|s| - 1]) == [];
    }
  }

  lemma {:induction false} ReverseLength<T>(s: seq<T>)
    ensures |Reverse(s)| == |s|
  {
    if s != [] {
      ReverseLength(s[..|s| - 1]);
    }
  }

  /** Reading the rendered list back to front gives the speeds in order. */
  lemma ReverseInvolution<T>(s: seq<T>)
    ensures Reverse(Reverse(s)) == s
  {
    ReverseLength(s);
    ReverseLength(Reverse(s));
    forall k | 0 <= k < |s|
      ensures Reverse(Reverse(s))[k] == s[k]
    {
      ReverseAt(Reverse(s), k);
      ReverseAt(s, |s| - 1 - k);
    }
  }

  /** The speeds of the rendered entries, in document order. */
  function SpeedsOf(items: seq<Item>): (r: seq<Speed>)
    ensures |r| == |items|
    ensures forall i :: 0 <= i < |items| ==> r[i] == items[i].speed
  {
    seq(|items|, i requires 0 <= i < |items| => items[i].speed)
  }

  // ---------------------------------------------------------------------
  // The speed menu
  // ---------------------------------------------------------------------

  class VideoSpeedControl {
    /** videoSpeedControl.speeds: the available speeds, in the order given. */
    var speeds: seq<Speed>
    /** The <li> entries of the speed list, in document order. */
    var items: seq<Item>
    /** Whether the control carries the class 'open'. */
    var open: bool
    var focus: Focus
    /** videoSpeedControl.currentSpeed; unset until a speed is chosen. */
    var currentSpeed: Option<Speed>
    /** The text of the control's 'p.active' label. */
    var activeLabel: string
    /** The payloads of the 'videoPlayer.onSpeedChange' events fired, oldest first. */
    var speedChanges: seq<Speed>

    /** The entries mirror the speeds (each speed is prepended in turn), and
        a focused entry exists. */
    ghost predicate Valid()
      reads this
    {
      && SpeedsOf(items) == Reverse(speeds)
      && (focus.Entry? ==> focus.index < |items|)
    }

    /** The module's entry point on a non-touch device: renders one entry
        per speed and marks `speed` as the active one. */
    constructor (speeds: seq<Speed>, speed: Speed)
      ensures Valid()
      ensures this.speeds == speeds
      ensures |items| == |speeds|
      ensures forall i :: 0 <= i < |items| ==> items[i].speed == speeds[|speeds| - 1 - i]
      ensures forall i :: 0 <= i < |items| ==> (items[i].active <==> items[i].speed == speed)
      ensures activeLabel == speed + "x"
      ensures !open && focus == Elsewhere && currentSpeed == None && speedChanges == []
    {
      this.speeds := speeds;
      items := [];
      open := false;
      focus := Elsewhere;
      currentSpeed := None;
      activeLabel := "";
      speedChanges := [];
      new;
      PrependItems(speeds, None);
      SetSpeed(speed);
      ReverseLength(speeds);
      forall i | 0 <= i < |items|
        ensures items[i].speed == speeds[|speeds| - 1 - i]
      {
        ReverseAt(speeds, i);
        assert SpeedsOf(items)[i] == items[i].speed;
      }
    }

    /** The $.each loop shared by rendering and re-rendering: prepends one
        entry per speed, active exactly when it equals `current`. */
    method PrependItems(newSpeeds: seq<Speed>, current: Option<Speed>)
      requires items == []
      modifies this
      ensures SpeedsOf(items) == Reverse(newSpeeds)
      ensures forall i :: 0 <= i < |items| ==> (items[i].active <==> Some(items[i].speed) == current)
      ensures speeds == old(speeds) && open == old(open) && focus == old(focus)
      ensures currentSpeed == old(currentSpeed) && activeLabel == old(activeLabel)
      ensures speedChanges == old(speedChanges)
    {
      var i := 0;
      while i < |newSpeeds|
        invariant 0 <= i <= |newSpeeds|
        invariant SpeedsOf(items) == Reverse(newSpeeds[..i])
        invariant forall j :: 0 <= j < |items| ==> (items[j].active <==> Some(items[j].speed) == current)
        invariant speeds == old(speeds) && open == old(open) && focus == old(focus)
        invariant currentSpeed == old(currentSpeed) && activeLabel == old(activeLabel)
        invariant speedChanges == old(speedChanges)
      {
        var speed := newSpeeds[i];
        var was := items;
        items := [Item(speed, Some(speed) == current)] + was;
        assert newSpeeds[..i + 1][..i] == newSpeeds[..i];
        assert Reverse(newSpeeds[..i + 1]) == [speed] + Reverse(newSpeeds[..i]);
        assert SpeedsOf(items) == [speed] + SpeedsOf(was);
        i := i + 1;
      }
      assert newSpeeds[..i] == newSpeeds;
    }

    /** setSpeed: exactly the entries whose speed is `speed` become active,
        and the control's activeLabel shows it. */
    method SetSpeed(speed: Speed)
      modifies this
      ensures SpeedsOf(items) == SpeedsOf(old(items))
      ensures forall i :: 0 <= i < |items| ==> (items[i].active <==> items[i].speed == speed)
      ensures activeLabel == speed + "x"
      ensures speeds == old(speeds) && open == old(open) && focus == old(focus)
      ensures currentSpeed == old(currentSpeed) && speedChanges == old(speedChanges)
    {
      var was := items;
      items := seq(|was|, i requires 0 <= i < |was| => Item(was[i].speed, was[i].speed == speed));
      activeLabel := speed + "x";
    }

    /** changeVideoSpeed, for a click (or ENTER) on the entry at `index`.
        An entry that is already active changes nothing and fires no event;
        otherwise its speed becomes the current speed, the list is marked
        with it (in the player's API format, `format`) and one speed-change
        event carries it. Either way the control regains the focus. */
    method ChangeVideoSpeed(index: nat, format: Speed -> Speed)
      requires Valid()
      requires index < |items|
      modifies this
      ensures Valid()
      ensures focus == Control
      ensures speeds == old(speeds) && open == old(open)
      ensures SpeedsOf(items) == SpeedsOf(old(items))
      ensures old(items[index].active) ==>
        items == old(items) && currentSpeed == old(currentSpeed) &&
        activeLabel == old(activeLabel) && speedChanges == old(speedChanges)
      ensures !old(items[index].active) ==>
        && currentSpeed == Some(old(items[index].speed))
        && speedChanges == old(speedChanges) + [old(items[index].speed)]
        && activeLabel == format(old(items[index].speed)) + "x"
        && (forall i :: 0 <= i < |items| ==>
              (items[i].active <==> items[i].speed == format(old(items[index].speed))))
    {
      var entry := items[index];
      if !entry.active {
        currentSpeed := Some(entry.speed);
        SetSpeed(format(entry.speed));
        speedChanges := speedChanges + [entry.speed];
      }
      focus := Control;
    }

    /** reRender: the list is emptied and rebuilt from `newSpeeds`, marking
        active exactly the entries equal to `current`. A focused entry is
        gone with the old list. */
    method ReRender(newSpeeds: seq<Speed>, current: Speed)
      requires Valid()
      modifies this
      ensures Valid()
      ensures speeds == newSpeeds
      ensures |items| == |newSpeeds|
      ensures forall i :: 0 <= i < |items| ==> items[i].speed == newSpeeds[|newSpeeds| - 1 - i]
      ensures forall i :: 0 <= i < |items| ==> (items[i].active <==> items[i].speed == current)
      ensures focus == (if old(focus).Entry? then Elsewhere else old(focus))
      ensures open == old(open) && currentSpeed == old(currentSpeed) && activeLabel == old(activeLabel)
      ensures speedChanges == old(speedChanges)
    {
      items := [];
      speeds := newSpeeds;
      if focus.Entry? {
        focus := Elsewhere;
      }
      PrependItems(newSpeeds, Some(current));
      ReverseLength(newSpeeds);
      forall i | 0 <= i < |items|
        ensures items[i].speed == newSpeeds[|newSpeeds| - 1 - i]
      {
        ReverseAt(newSpeeds, i);
        assert SpeedsOf(items)[i] == items[i].speed;
      }
    }

    /** 'mouseenter' on the control opens the menu. */
    method MouseEnter()
      requires Valid()
      modifies this`open
      ensures Valid() && open
    {
      open := true;
    }

    /** 'mouseleave' on the control closes the menu. */
    method MouseLeave()
      requires Valid()
      modifies this`open
      ensures Valid() && !open
    {
      open := false;
    }

    /** 'click' on the control closes the menu. */
    method Click()
      requires Valid()
      modifies this`open
      ensures Valid() && !open
    {
      open := false;
    }

    /** 'keydown' on the control. SPACE and ENTER toggle the menu; UP opens
        it and focuses the last entry of the list; ESCAPE closes it; any
        other key leaves it as it is. The browser's default action is
        suppressed for every key except TAB. */
    method ControlKeyDown(keyCode: int) returns (defaultPrevented: bool)
      requires Valid()
      modifies this`open, this`focus
      ensures Valid()
      ensures defaultPrevented <==> keyCode != TAB
      ensures keyCode == SPACE || keyCode == ENTER ==> open == !old(open) && focus == old(focus)
      ensures keyCode == UP ==> open
      ensures keyCode == UP && |items| > 0 ==> focus == Entry(|items| - 1)
      ensures keyCode == UP && |items| == 0 ==> focus == old(focus)
      ensures keyCode == ESCAPE ==> !open && focus == old(focus)
      ensures keyCode !in {SPACE, ENTER, UP, ESCAPE} ==> open == old(open) && focus == old(focus)
    {
      defaultPrevented := keyCode != TAB;
      if keyCode == SPACE || keyCode == ENTER {
        open := !open;
      } else if keyCode == UP {
        if !open {
          open := true;
        }
        if |items| > 0 {
          focus := Entry(|items| - 1);
        }
      } else if keyCode == ESCAPE {
        open := false;
      }
    }

    /** 'click' on the link of the entry at `index`. changeVideoSpeed runs
        on the link; the click then bubbles up to the control, whose own
        click handler closes the menu. */
    method EntryClick(index: nat, format: Speed -> Speed)
      requires Valid()
      requires index < |items|
      modifies this
      ensures Valid()
      ensures !open && focus == Control
      ensures speeds == old(speeds) && SpeedsOf(items) == SpeedsOf(old(items))
      ensures old(items[index].active) ==>
        items == old(items) && currentSpeed == old(currentSpeed) &&
        activeLabel == old(activeLabel) && speedChanges == old(speedChanges)
      ensures !old(items[index].active) ==>
        && currentSpeed == Some(old(items[index].speed))
        && speedChanges == old(speedChanges) + [old(items[index].speed)]
        && activeLabel == format(old(items[index].speed)) + "x"
        && (forall i :: 0 <= i < |items| ==>
              (items[i].active <==> items[i].speed == format(old(items[index].speed))))
    {
      ChangeVideoSpeed(index, format);
      open := false;
    }

    /** 'keydown' on the link of the entry at `index`. UP, or TAB without
        shift, focuses the entry above (wrapping to the last); DOWN, or TAB
        with shift, focuses the entry below (wrapping to the first); ENTER
        changes the speed as a click would and closes the menu; ESCAPE
        closes the menu and focuses the control. The browser's default
        action is suppressed for every key, and the event does not reach
        the control's own keydown handler. */
    method EntryKeyDown(index: nat, keyCode: int, shiftKey: bool, format: Speed -> Speed)
      returns (defaultPrevented: bool)
      requires Valid()
      requires index < |items|
      modifies this
      ensures defaultPrevented
      ensures Valid()
      ensures speeds == old(speeds) && SpeedsOf(items) == SpeedsOf(old(items))
      ensures keyCode == UP || (keyCode == TAB && !shiftKey) ==>
        && focus == Entry(PreviousIndex(|items|, index))
        && open == old(open) && items == old(items) && currentSpeed == old(currentSpeed)
        && activeLabel == old(activeLabel) && speedChanges == old(speedChanges)
      ensures keyCode == DOWN || (keyCode == TAB && shiftKey) ==>
        && focus == Entry(NextIndex(|items|, index))
        && open == old(open) && items == old(items) && currentSpeed == old(currentSpeed)
        && activeLabel == old(activeLabel) && speedChanges == old(speedChanges)
      ensures keyCode == ENTER ==> !open && focus == Control
      ensures keyCode == ENTER && old(items[index].active) ==>
        items == old(items) && currentSpeed == old(currentSpeed) &&
        activeLabel == old(activeLabel) && speedChanges == old(speedChanges)
      ensures keyCode == ENTER && !old(items[index].active) ==>
        && currentSpeed == Some(old(items[index].speed))
        && speedChanges == old(speedChanges) + [old(items[index].speed)]
        && activeLabel == format(old(items[index].speed)) + "x"
        && (forall i :: 0 <= i < |items| ==>
              (items[i].active <==> items[i].speed == format(old(items[index].speed))))
      ensures keyCode == ESCAPE ==>
        && !open && focus == Control
        && items == old(items) && currentSpeed == old(currentSpeed)
        && activeLabel == old(activeLabel) && speedChanges == old(speedChanges)
      ensures keyCode !in {UP, DOWN, TAB, ENTER, ESCAPE} ==>
        && open == old(open) && focus == old(focus) && items == old(items)
        && currentSpeed == old(currentSpeed) && activeLabel == old(activeLabel)
        && speedChanges == old(speedChanges)
    {
      defaultPrevented := true;
      var n := |items|;
      if keyCode == UP || (keyCode == TAB && !shiftKey) {
        focus := Entry(PreviousIndex(n, index));
      } else if keyCode == DOWN || (keyCode == TAB && shiftKey) {
        focus := Entry(NextIndex(n, index));
      } else if keyCode == ENTER {
        ChangeVideoSpeed(index, format);
        open := false;
      } else if keyCode == ESCAPE {
        open := false;
        focus := Control;
      }
    }
  }

  /** The module's entry point. On a touch device the speed menu is removed
      and no speed-control state is created. */
  method Initialize(isTouch: bool, speeds: seq<Speed>, speed: Speed) returns (control: VideoSpeedControl?)
    ensures isTouch <==> control == null
    ensures control != null ==>
      && fresh(control) && control.Valid() && control.speeds == speeds
      && |control.items| == |speeds|
      && (forall i :: 0 <= i < |control.items| ==> control.items[i].speed == speeds[|speeds| - 1 - i])
      && (forall i :: 0 <= i < |control.items| ==> (control.items[i].active <==> control.items[i].speed == speed))
      && control.activeLabel == speed + "x"
      && !control.open && control.focus == Elsewhere && control.currentSpeed == None
      && control.speedChanges == []
  {
    if isTouch {
      return null;
    }
    control := new VideoSpeedControl(speeds, speed);
  }

  /** The rendering scenario of the player's own tests: four speeds, the
      list shows them in reverse, pressing UP on the control then DOWN and
      UP on the entries walks round the list, and clicking the last entry
      picks its speed and closes the menu. */
  method RenderAndWalkScenario()
  {
    var c := new VideoSpeedControl(["0.75", "1.0", "1.25", "1.50"], "1.50");
    assert c.items[0].speed == "1.50" && c.items[3].speed == "0.75";
    assert c.items[0].active && !c.items[3].active;
    var _ := c.ControlKeyDown(UP);
    assert c.open && c.focus == Entry(3);
    var prevented := c.EntryKeyDown(3, DOWN, false, s => s);
    assert c.focus == Entry(0);
    prevented := c.EntryKeyDown(0, UP, false, s => s);
    assert c.focus == Entry(3);
    c.EntryClick(3, s => s);
    assert !c.open && c.currentSpeed == Some("0.75") && c.speedChanges == ["0.75"];
  }
}
