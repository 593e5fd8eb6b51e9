/**
 * The slideshow page (relive.js): a playback controller over a display order of the
 * stored entries, with a cursor, a direction, shuffle/loop/caption flags and an
 * autoplay timer.
 */
module Relive {
  import opened Wrappers
  import opened Text
  import opened Entries
  import opened Seqs
  import opened DataUrl

  const DefaultInterval := 3500

  /** `parseInt(durationRange.value, 10) || 3500`: `None` is a value that does not parse (NaN). */
  function IntervalOf(duration: Option<int>): (ms: int)
    ensures ms != 0
    ensures duration.Some? && duration.value != 0 ==> ms == duration.value
    ensures !(duration.Some? && duration.value != 0) ==> ms == DefaultInterval
  {
    if duration.Some? && duration.value != 0 then duration.value else DefaultInterval
  }

  /** JavaScript's `a % n`: the remainder has the sign of the dividend. A result of -0 is
      written 0: it compares equal to 0 and indexes the same array cell. */
  function JsRem(a: int, n: int): (r: int)
    requires n > 0
    ensures a >= 0 ==> 0 <= r < n
    ensures a < 0 ==> -n < r <= 0
  {
    if a >= 0 then a % n else -((-a) % n)
  }

  /** The remainder only depends on the size of the dividend, and takes its sign. */
  lemma JsRemOdd(a: int, n: int)
    requires n > 0
    ensures JsRem(-a, n) == -JsRem(a, n)
  {
  }

  /** Euclidean remainder of a value at most one period below `0` or up to two periods above. */
  lemma ModNear(x: int, n: int)
    requires n > 0 && -n <= x <= 2 * n
    ensures x % n == if x < 0 then x + n else if x < n then x else if x < 2 * n then x - n else 0
  {
    if x < 0 {
      assert x == n * -1 + (x + n);
    } else if x < n {
      assert x == n * 0 + x;
    } else if x < 2 * n {
      assert x == n * 1 + (x - n);
    } else {
      assert x == n * 2;
    }
  }

  /** The cursor arithmetic of `nextSlide` (`d` the direction) and `prevSlide` (`d` minus the
      direction): `(c + d + n) % n` in JavaScript is `(c + d) mod n` and lands in `0 .. n-1`. */
  lemma CursorMove(c: int, d: int, n: int)
    requires n > 0 && -1 <= c < n && (d == 1 || d == -1)
    ensures JsRem(c + d + n, n) == (c + d) % n
    ensures 0 <= JsRem(c + d + n, n) < n
  {
    var x := c + d;
    if x + n < 0 {
      assert n == 1 && x == -2;
      assert JsRem(x + n, n) == 0;
    } else {
      ModNear(x + n, n);
      ModNear(x, n);
    }
  }

  /** Moving forward from just before a slide lands on that slide. */
  lemma StepLands(pos: int, n: int)
    requires 0 <= pos < n
    ensures (pos - 1 + 1) % n == pos
  {
    ModNear(pos, n);
  }

  /** Going back after going forward (or forward after back) returns to the same slide. */
  lemma StepBack(c: int, d: int, n: int)
    requires n > 0 && 0 <= c < n && (d == 1 || d == -1)
    ensures ((c + d) % n - d) % n == c
  {
    ModNear(c + d, n);
    ModNear((c + d) % n - d, n);
    ModNear(c, n);
  }

  /** `memories.map((_, i) => i)` */
  function Identity(n: nat): (s: seq<int>)
    ensures |s| == n
  {
    seq(n, i => i)
  }

  /** A display order: each index of the `n` entries exactly once. */
  predicate IsPermutation(s: seq<int>, n: nat)
  {
    multiset(s) == multiset(Identity(n))
  }

  lemma PermutationFacts(s: seq<int>, n: nat)
    requires IsPermutation(s, n)
    ensures |s| == n
    ensures forall k :: 0 <= k < |s| ==> 0 <= s[k] < n
    ensures forall x :: 0 <= x < n ==> x in s
  {
    assert |multiset(s)| == |s|;
    forall k | 0 <= k < |s|
      ensures 0 <= s[k] < n
    {
      assert s[k] in multiset(Identity(n));
    }
    forall x | 0 <= x < n
      ensures x in s
    {
      assert Identity(n)[x] == x;
      assert x in multiset(Identity(n));
    }
  }

  /** Every thumbnail is found in a display order: `order.indexOf(idx)` is never -1 for an entry's index. */
  lemma EveryThumbnailFound(order: seq<int>, n: nat, idx: int)
    requires IsPermutation(order, n) && 0 <= idx < n
    ensures 0 <= IndexOf(order, idx) < n && order[IndexOf(order, idx)] == idx
  {
    PermutationFacts(order, n);
  }

  /** `shuffleArray`: Fisher–Yates from the top index down, with the random pick left open. */
  method ShuffleArray(a: array<int>)
    modifies a
    ensures multiset(a[..]) == multiset(old(a[..]))
  {
    var i := a.Length - 1;
    while i > 0
      invariant -1 <= i < a.Length
      invariant multiset(a[..]) == multiset(old(a[..]))
    {
      var j :| 0 <= j <= i;
      a[i], a[j] := a[j], a[i];
      i := i - 1;
    }
  }

  /** Joining two whitespace-free strings gives a whitespace-free string. */
  lemma NoSpaceConcat(a: string, b: string)
    requires NoSpace(a) && NoSpace(b)
    ensures NoSpace(a + b)
  {
    forall i | 0 <= i < |a + b|
      ensures !IsSpace((a + b)[i])
    {
      if i >= |a| {
        assert (a + b)[i] == b[i - |a|];
      }
    }
  }

  /** `(mem.title || 'memory').replace(/\s+/g, '_') + '.png'` */
  function DownloadName(title: string): (name: string)
    ensures |name| >= 4 && name[|name| - 4..] == ".png"
    ensures NoSpace(name)
    ensures title != "" && NoSpace(title) ==> name == title + ".png"
    ensures title == "" ==> name == "memory.png"
  {
    MemoryStem();
    var stem := CollapseSpaces(if title == "" then "memory" else title);
    PlainNoSpace(".png");
    NoSpaceConcat(stem, ".png");
    var name := stem + ".png";
    assert name[|stem|..] == ".png";
    name
  }

  /** The fallback stem has no whitespace to replace. */
  lemma MemoryStem()
    ensures CollapseSpaces("memory") == "memory"
  {
    PlainNoSpace("memory");
  }

  /** Lower-case letters and dots are not whitespace. */
  lemma PlainNoSpace(s: string)
    requires forall i :: 0 <= i < |s| ==> s[i] == '.' || 'a' <= s[i] <= 'z'
    ensures NoSpace(s)
  {
  }

  /** What the download button does. */
  datatype Download = NoSlide | NoImage | Save(href: string, filename: string)

  class Slideshow {
    var memories: seq<Entry>
    var order: array<int>
    var current: int
    /** The autoplay timer: the interval it was set with, `None` when there is none. */
    var timer: Option<int>
    var shuffleMode: bool
    var playing: bool
    var loopMode: bool
    var direction: int
    var captionsOn: bool

    /** The display order is a permutation of the entry indices. */
    ghost predicate OrderValid()
      reads this`memories, this`order, order
    {
      && order.Length == |memories|
      && IsPermutation(order[..], |memories|)
      && (forall k :: 0 <= k < order.Length ==> 0 <= order[k] < |memories|)
    }

    ghost predicate Valid()
      reads this`memories, this`order, order, this`current, this`direction, this`timer, this`playing
    {
      && OrderValid()
      && -1 <= current < order.Length
      && (direction == 1 || direction == -1)
      && (timer.Some? ==> playing)
    }

    /** The closure's state before `init` runs. */
    constructor ()
      ensures Valid()
      ensures memories == [] && order.Length == 0 && current == -1 && timer == None
      ensures !shuffleMode && playing && loopMode && direction == 1 && captionsOn
    {
      memories := [];
      order := new int[0];
      current := -1;
      timer := None;
      shuffleMode := false;
      playing := true;
      loopMode := true;
      direction := 1;
      captionsOn := true;
    }

    /** `nextSlide`: one step in the current direction, wrapping around whatever `loopMode` says. */
    method NextSlide()
      requires Valid()
      modifies this`current
      ensures Valid()
      ensures order.Length == 0 ==> current == old(current)
      ensures order.Length > 0 ==> current == (old(current) + direction) % order.Length
    {
      if order.Length == 0 {
        return;
      }
      CursorMove(current, direction, order.Length);
      current := JsRem(current + direction + order.Length, order.Length);
    }

    /** `prevSlide`: one step against the current direction. */
    method PrevSlide()
      requires Valid()
      modifies this`current
      ensures Valid()
      ensures order.Length == 0 ==> current == old(current)
      ensures order.Length > 0 ==> current == (old(current) - direction) % order.Length
    {
      if order.Length == 0 {
        return;
      }
      CursorMove(current, -direction, order.Length);
      current := JsRem(current - direction + order.Length, order.Length);
    }

    /** `stop` */
    method Stop()
      requires Valid()
      modifies this`timer, this`playing
      ensures Valid() && timer == None && !playing
    {
      timer := None;
      playing := false;
    }

    /** `start(interval)`: playing, one step forward at once, and a timer set. */
    method Start(interval: int)
      requires Valid()
      modifies this`timer, this`playing, this`current
      ensures Valid() && playing && timer == Some(interval)
      ensures order.Length == 0 ==> current == old(current)
      ensures order.Length > 0 ==> current == (old(current) + direction) % order.Length
    {
      Stop();
      // `playing = true` comes before `nextSlide()` in the page; the step neither reads nor writes
      // the flag or the timer, so both are set together afterwards.
      NextSlide();
      playing, timer := true, Some(interval);
    }

    /** `restartTimer`: only a running timer is replaced; it never starts playback. */
    method RestartTimer(duration: Option<int>)
      requires Valid()
      modifies this`timer
      ensures Valid()
      ensures timer == if old(timer).Some? then Some(IntervalOf(duration)) else None
    {
      if timer.Some? {
        timer := Some(IntervalOf(duration));
      }
    }

    /** The display order part of `buildSlides`: storage order, shuffled when shuffle is on. */
    method BuildOrder()
      modifies this`order
      ensures fresh(order) && OrderValid()
      ensures !shuffleMode ==> order[..] == Identity(|memories|)
    {
      order := new int[|memories|](i => i);
      assert order[..] == Identity(|memories|);
      if shuffleMode {
        ShuffleArray(order);
        PermutationFacts(order[..], |memories|);
      }
    }

    /** `init`: load the entries; with none there is nothing to play, otherwise build the
        display order and start playing. */
    method Init(stored: Option<seq<Entry>>, duration: Option<int>)
      requires Valid() && order.Length == 0 && current == -1 && timer == None
      modifies this
      ensures Valid() && memories == Load(stored)
      ensures shuffleMode == old(shuffleMode) && direction == old(direction)
      ensures loopMode == old(loopMode) && captionsOn == old(captionsOn)
      ensures memories == [] ==> order.Length == 0 && current == -1 && timer == None && playing == old(playing)
      ensures memories != [] ==>
        && fresh(order) && playing && timer == Some(IntervalOf(duration))
        && current == (-1 + direction) % |memories|
        && (!shuffleMode ==> order[..] == Identity(|memories|))
    {
      memories := Load(stored);
      if |memories| == 0 {
        return;
      }
      BuildOrder();
      Start(IntervalOf(duration));
    }

    /** The next button and the right-arrow key. */
    method NextButton(duration: Option<int>)
      requires Valid()
      modifies this`current, this`timer
      ensures Valid()
      ensures order.Length > 0 ==> current == (old(current) + direction) % order.Length
      ensures order.Length == 0 ==> current == old(current)
      ensures timer == if old(timer).Some? then Some(IntervalOf(duration)) else None
    {
      NextSlide();
      if timer.Some? {
        RestartTimer(duration);
      }
    }

    /** The previous button and the left-arrow key. */
    method PrevButton(duration: Option<int>)
      requires Valid()
      modifies this`current, this`timer
      ensures Valid()
      ensures order.Length > 0 ==> current == (old(current) - direction) % order.Length
      ensures order.Length == 0 ==> current == old(current)
      ensures timer == if old(timer).Some? then Some(IntervalOf(duration)) else None
    {
      PrevSlide();
      if timer.Some? {
        RestartTimer(duration);
      }
    }

    /** The space key: pause when a timer runs, otherwise start. */
    method SpaceKey(duration: Option<int>)
      requires Valid()
      modifies this`timer, this`playing, this`current
      ensures Valid()
      ensures old(timer).Some? ==> timer == None && !playing && current == old(current)
      ensures old(timer).None? ==> timer == Some(IntervalOf(duration)) && playing
      ensures old(timer).None? ==>
        && (order.Length > 0 ==> current == (old(current) + direction) % order.Length)
        && (order.Length == 0 ==> current == old(current))
    {
      if timer.Some? {
        Stop();
      } else {
        Start(IntervalOf(duration));
      }
    }

    /** `current = pos - 1; nextSlide()`: one step from just before position `pos`. */
    method JumpTo(pos: int)
      requires Valid() && 0 <= pos < order.Length
      modifies this`current
      ensures Valid()
      ensures current == (pos - 1 + direction) % order.Length
      ensures direction == 1 ==> current == pos
    {
      current := pos - 1;
      NextSlide();
      if direction == 1 {
        StepLands(pos, order.Length);
      }
    }

    /** A click on the thumbnail of entry `idx`: jump to its place in the display order. */
    method ClickThumbnail(idx: int, duration: Option<int>)
      requires Valid()
      modifies this`current, this`timer
      ensures Valid()
      ensures IndexOf(order[..], idx) == -1 ==> current == old(current) && timer == old(timer)
      ensures var pos := IndexOf(order[..], idx);
        pos != -1 ==>
          && current == (pos - 1 + direction) % order.Length
          && timer == (if old(timer).Some? then Some(IntervalOf(duration)) else None)
          && (direction == 1 ==> order[current] == idx)
    {
      var pos := IndexOf(order[..], idx);
      if pos != -1 {
        JumpTo(pos);
        if timer.Some? {
          RestartTimer(duration);
        }
      }
    }

    /** The shuffle button: a fresh shuffle of the current order, or back to storage order;
        either way the cursor restarts before the first slide. */
    method ToggleShuffle()
      requires Valid()
      modifies this, order
      ensures Valid()
      ensures shuffleMode == !old(shuffleMode) && current == -1
      ensures shuffleMode ==> order == old(order) && multiset(order[..]) == multiset(old(order[..]))
      ensures !shuffleMode ==> fresh(order) && order[..] == Identity(|memories|)
      ensures memories == old(memories) && timer == old(timer) && playing == old(playing)
      ensures direction == old(direction) && loopMode == old(loopMode) && captionsOn == old(captionsOn)
    {
      shuffleMode := !shuffleMode;
      if shuffleMode {
        ShuffleArray(order);
        PermutationFacts(order[..], |memories|);
      } else {
        order := new int[|memories|](i => i);
        assert order[..] == Identity(|memories|);
      }
      current := -1;
    }

    /** The loop button: only the flag changes. */
    method ToggleLoop()
      modifies this`loopMode
      ensures loopMode == !old(loopMode)
    {
      loopMode := !loopMode;
    }

    /** The reverse button: `direction *= -1`. */
    method ToggleReverse()
      requires Valid()
      modifies this`direction
      ensures Valid() && direction == -old(direction)
    {
      direction := direction * -1;
    }

    /** The captions button: only the flag changes. */
    method ToggleCaptions()
      modifies this`captionsOn
      ensures captionsOn == !old(captionsOn)
    {
      captionsOn := !captionsOn;
    }

    /** The download button: an alert without a current slide; the image of the current entry
        only when it passes the data-URL check, saved under a whitespace-free `.png` name. */
    function DownloadAction(): (r: Download)
      requires Valid()
      reads this, order
      ensures r == NoSlide <==> current < 0 || order.Length == 0
      ensures r.Save? <==> current >= 0 && order.Length > 0 && IsValidImageDataUrl(memories[order[current]].image)
      ensures r.Save? ==> IsValidImageDataUrl(Some(r.href)) && r.filename == DownloadName(memories[order[current]].title)
      ensures r.Save? ==> Some(r.href) == memories[order[current]].image
    {
      if current < 0 || order.Length == 0 then NoSlide
      else
        var mem := memories[order[current]];
        if mem.image.Some? && mem.image.value != "" && IsValidImageDataUrl(mem.image)
        then Save(mem.image.value, DownloadName(mem.title))
        else NoImage
    }
  }

  /** A controller over three entries with the cursor on the first slide and direction forward:
      four steps visit positions 1, 2, 0, 1, whatever the loop flag says. */
  method WraparoundScenario(show: Slideshow) returns (visited: seq<int>)
    requires show.Valid() && show.order.Length == 3 && show.current == 0 && show.direction == 1
    modifies show`current
    ensures visited == [1, 2, 0, 1]
  {
    show.NextSlide();
    assert show.current == 1;
    visited := [show.current];
    show.NextSlide();
    assert show.current == 2;
    visited := visited + [show.current];
    show.NextSlide();
    assert show.current == 0;
    visited := visited + [show.current];
    show.NextSlide();
    assert show.current == 1;
    visited := visited + [show.current];
  }
}
