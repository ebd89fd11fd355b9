/**
 * The presentation viewer (components/PresentationViewer.tsx): one cursor over the slides, moved
 * by next, previous and go-to operations and by a key map, and the controls drawn from it.
 * The cursor arithmetic is stated as functions on integers; the `Viewer` class holds the cursor
 * and its methods update it as the component's state setters do.
 */
module Navigation {
  import opened Wrappers
  import opened Js
  import opened Text

  /** `Math.min(prev + 1, totalSlides - 1)`: one slide on, staying put on the last. */
  function NextIndex(cur: int, total: nat): (r: int)
    ensures 0 <= cur < total - 1 ==> r == cur + 1
    ensures cur == total - 1 ==> r == cur
    ensures r <= total - 1
  {
    Min(cur + 1, total - 1)
  }

  /** `Math.max(prev - 1, 0)`: one slide back, staying put on the first. */
  function PreviousIndex(cur: int): (r: int)
    ensures cur >= 1 ==> r == cur - 1
    ensures cur <= 1 ==> r == 0
  {
    Max(cur - 1, 0)
  }

  /** `Math.max(0, Math.min(index, totalSlides - 1))`: the requested slide, clamped to the deck. */
  function ClampIndex(i: int, total: nat): (r: int)
    ensures r >= 0
    ensures total >= 1 ==> r < total
    ensures 0 <= i < total ==> r == i
    ensures i < 0 ==> r == 0
    ensures total >= 1 && i >= total ==> r == total - 1
  {
    Max(0, Min(i, total - 1))
  }

  /** The cursor positions the viewer can be in: on a slide, or for an empty deck `0` or the `-1` that next leaves. */
  predicate InRange(cur: int, total: nat) {
    if total >= 1 then 0 <= cur < total else -1 <= cur <= 0
  }

  /** `e.key >= '1' && e.key <= '9'`, compared as strings. */
  predicate DigitKey(key: string) {
    StringLessEq("1", key) && StringLessEq(key, "9")
  }

  /** A key passes the string comparison exactly when it starts with `1`..`8`, or is `9` itself. */
  lemma DigitKeyShape(key: string)
    ensures DigitKey(key) <==> key != [] && (('1' <= key[0] <= '8') || key == "9")
  {
    if key != [] && key[0] == '9' && |key| > 1 {
      assert !StringLessEq(key[1..], "9"[1..]);
    }
  }

  /** `parseInt(e.key) - 1` for a key that passes the comparison. */
  function DigitSlide(key: string): (n: int)
    requires DigitKey(key)
    ensures n >= 0
  {
    DigitKeyShape(key);
    var ds := LeadingDigits(key);
    assert ds != [] && ds[0] == key[0] by { assert ds == [key[0]] + LeadingDigits(key[1..]); }
    NonZeroNumeral(ds);
    DecimalValue(ds) - 1
  }

  /** The cursor after `handleKeyDown`; keys outside the map leave it where it is. */
  function KeyTarget(key: string, cur: int, total: nat): (r: int)
    ensures (key != "ArrowRight" && key != " " && key != "ArrowLeft" && key != "Home" && key != "End"
             && !DigitKey(key)) ==> r == cur
    ensures DigitKey(key) && DigitSlide(key) >= total ==> r == cur
  {
    if key == "ArrowRight" || key == " " then NextIndex(cur, total)
    else if key == "ArrowLeft" then PreviousIndex(cur)
    else if key == "Home" then ClampIndex(0, total)
    else if key == "End" then ClampIndex(total - 1, total)
    else if DigitKey(key) then
      if DigitSlide(key) < total then ClampIndex(DigitSlide(key), total) else cur
    else cur
  }

  /** Every operation and every key keeps the cursor in range. */
  lemma NavigationKeepsRange(cur: int, total: nat, i: int, key: string)
    requires InRange(cur, total)
    ensures InRange(NextIndex(cur, total), total)
    ensures InRange(PreviousIndex(cur), total)
    ensures InRange(ClampIndex(i, total), total)
    ensures InRange(KeyTarget(key, cur, total), total)
  {
    var t := KeyTarget(key, cur, total);
    if key == "ArrowRight" || key == " " {
      assert t == NextIndex(cur, total);
    } else if key == "ArrowLeft" {
      assert t == PreviousIndex(cur);
    } else if key == "Home" || key == "End" {
      assert t == ClampIndex(0, total) || t == ClampIndex(total - 1, total);
    } else if DigitKey(key) && DigitSlide(key) < total {
      assert t == ClampIndex(DigitSlide(key), total);
    } else {
      assert t == cur;
    }
  }

  /** The key map: arrows and space step, Home and End jump to the ends, a digit `d` jumps to slide `d - 1` if the deck has it. */
  lemma KeyMap(cur: int, total: nat, d: char)
    requires total >= 1 && 0 <= cur < total
    ensures KeyTarget("ArrowRight", cur, total) == KeyTarget(" ", cur, total) == Min(cur + 1, total - 1)
    ensures KeyTarget("ArrowLeft", cur, total) == Max(cur - 1, 0)
    ensures KeyTarget("Home", cur, total) == 0
    ensures KeyTarget("End", cur, total) == total - 1
    ensures '1' <= d <= '9' ==>
      KeyTarget([d], cur, total) == if (d as int - '1' as int) < total then d as int - '1' as int else cur
  {
    if '1' <= d <= '9' {
      DigitKeyShape([d]);
      assert LeadingDigits([d]) == [d] by { LeadingDigitsOfNumeral([d], []); assert [d] + [] == [d]; }
      assert [d][..0] == [];
    }
  }

  /** Keys mapped to nothing leave the cursor alone; `0` and letters are among them. */
  lemma UnmappedKeyIsIgnored(key: string, cur: int, total: nat)
    requires key != [] && (key[0] < '1' || key[0] > '9') && key != "ArrowRight" && key != " "
    requires key != "ArrowLeft" && key != "Home" && key != "End"
    ensures KeyTarget(key, cur, total) == cur
  {
    DigitKeyShape(key);
  }

  /** The cursor after a sequence of key presses. */
  function Replay(keys: seq<string>, cur: int, total: nat): int
    decreases |keys|
  {
    if keys == [] then cur else Replay(keys[1..], KeyTarget(keys[0], cur, total), total)
  }

  /** Starting on the first slide, the cursor stays in range whatever keys are pressed. */
  lemma {:induction false} ReplayKeepsRange(keys: seq<string>, cur: int, total: nat)
    requires InRange(cur, total)
    ensures InRange(Replay(keys, cur, total), total)
    decreases |keys|
  {
    if keys != [] {
      NavigationKeepsRange(cur, total, 0, keys[0]);
      ReplayKeepsRange(keys[1..], KeyTarget(keys[0], cur, total), total);
    }
  }

  /** The viewer's state: the cursor over a deck of `total` slides, and the props that shape the controls. */
  class Viewer {
    var current: int
    const total: nat
    const showControls: bool
    const clientName: Option<string>

    ghost predicate Valid()
      reads this
    {
      InRange(current, total)
    }

    /** The viewer opens on the first slide. */
    constructor(slideCount: nat, showControls: bool, clientName: Option<string>)
      ensures Valid()
      ensures current == 0 && total == slideCount
      ensures this.showControls == showControls && this.clientName == clientName
    {
      current := 0;
      total := slideCount;
      this.showControls := showControls;
      this.clientName := clientName;
    }

    method GoToNextSlide()
      requires Valid()
      modifies this
      ensures Valid()
      ensures current == NextIndex(old(current), total)
    {
      NavigationKeepsRange(current, total, 0, "");
      current := Min(current + 1, total - 1);
    }

    method GoToPreviousSlide()
      requires Valid()
      modifies this
      ensures Valid()
      ensures current == PreviousIndex(old(current))
    {
      current := Max(current - 1, 0);
    }

    method GoToSlide(index: int)
      requires Valid()
      modifies this
      ensures Valid()
      ensures current == ClampIndex(index, total)
    {
      current := Max(0, Min(index, total - 1));
    }

    /** `handleKeyDown`: dispatches a key to the navigation operations. */
    method HandleKeyDown(key: string)
      requires Valid()
      modifies this
      ensures Valid()
      ensures current == KeyTarget(key, old(current), total)
    {
      if key == "ArrowRight" || key == " " {
        GoToNextSlide();
      } else if key == "ArrowLeft" {
        GoToPreviousSlide();
      } else if key == "Home" {
        GoToSlide(0);
      } else if key == "End" {
        GoToSlide(total - 1);
      } else if DigitKey(key) {
        var slideNum := DigitSlide(key);
        if slideNum < total {
          GoToSlide(slideNum);
        }
      }
    }

    /** The counter text `current + 1 / total`. */
    function Counter(): (s: string)
      requires Valid()
      reads this
      ensures s == DecimalString(current + 1) + " / " + DecimalString(total)
      ensures StartsWith(s, DecimalString(current + 1))
    {
      var s := DecimalString(current + 1) + " / " + DecimalString(total);
      assert s[..|DecimalString(current + 1)|] == DecimalString(current + 1);
      s
    }

    /** The previous button is disabled on the first slide: exactly where stepping back would not move. */
    predicate PreviousDisabled()
      reads this
      ensures Valid() ==> (PreviousDisabled() <==> PreviousIndex(current) == current)
    {
      current == 0
    }

    /** The next button is disabled on the last slide: on a deck, exactly where stepping on would not move. */
    predicate NextDisabled()
      reads this
      ensures Valid() && total >= 1 ==> (NextDisabled() <==> NextIndex(current, total) == current)
    {
      current == total - 1
    }

    /** The navigation hint shows with the controls, on the first slide only: when the previous button is disabled. */
    predicate HintShown()
      reads this
      ensures HintShown() <==> showControls && PreviousDisabled()
    {
      showControls && current == 0
    }

    /** The client badge: the client's name, with the controls and a truthy name only. */
    function Badge(): (b: Option<string>)
      reads this
      ensures b.Some? <==> showControls && Truthy(clientName)
      ensures b.Some? ==> b.value == "Prepared for: " + clientName.value
    {
      if Truthy(clientName) && showControls then Some("Prepared for: " + clientName.value) else None
    }
  }

  /** The counter reads back as the one-based position of the cursor. */
  lemma CounterReadsPosition(v: Viewer)
    requires v.Valid()
    ensures DecimalValue(LeadingDigits(v.Counter())) == v.current + 1
  {
    var n := DecimalString(v.current + 1);
    assert v.Counter() == n + (" / " + DecimalString(v.total));
    LeadingDigitsOfNumeral(n, " / " + DecimalString(v.total));
    DecimalRoundTrip(v.current + 1);
  }
}
