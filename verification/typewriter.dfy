/** The welcome section's typewriter: it cycles through a fixed list of
    strings, typing one character per tick, pausing once a string is complete,
    deleting one character per tick, and moving on (wrapping) to the next
    string once it is empty. Each firing of the scheduled timeout is one
    discrete tick. */
module Typewriter {

  /** Milliseconds before the next tick while typing. */
  const TypingDelay: nat := 100
  /** Milliseconds before the next tick while deleting. */
  const DeletingDelay: nat := 50
  /** Milliseconds a fully typed string stays before deletion starts. */
  const PauseDelay: nat := 2000

  /** JavaScript's `s.substring(0, end)`: an end below 0 reads as 0 and an end
      past the string reads as its length. */
  function SubstringTo(s: string, end: int): (r: string)
    ensures r <= s
    ensures |r| == if end < 0 then 0 else if end > |s| then |s| else end
  {
    if end < 0 then [] else if end > |s| then s else s[..end]
  }

  /** The component's state: which string it is working on, the text shown,
      and whether it is deleting. */
  datatype TypeState = TypeState(index: nat, text: string, deleting: bool)

  /** The state the component mounts with. */
  const Initial := TypeState(0, "", false)

  /** The shown text is a prefix of the string being worked on. */
  ghost predicate Valid(texts: seq<string>, s: TypeState)
  {
    s.index < |texts| && s.text <= texts[s.index]
  }

  /** One firing of the timeout: the next state, and the milliseconds from the
      moment the current state took effect until the next one does. */
  datatype Step = Step(next: TypeState, elapsed: nat)

  /** The delay the effect schedules its timeout with. */
  function Delay(s: TypeState): (ms: nat)
  {
    if s.deleting then DeletingDelay else TypingDelay
  }

  /** One tick of the timeout callback. The shown text is always recomputed
      from the full string, so it is cut to a prefix even when it was not one;
      the flags are decided from the text as it was before the tick. On a fully
      typed string the text stays as it is (so nothing re-renders) and the
      deleting flag is set by a second timeout 2000 ms later. */
  function Tick(texts: seq<string>, s: TypeState): (st: Step)
    requires s.index < |texts|
    ensures st.next.index < |texts|
    ensures |st.next.text| <= |texts[st.next.index]|
  {
    var full := texts[s.index];
    var text' := if s.deleting then SubstringTo(full, |s.text| - 1)
                 else SubstringTo(full, |s.text| + 1);
    if !s.deleting && s.text == full then
      Step(TypeState(s.index, text', true), Delay(s) + PauseDelay)
    else if s.deleting && s.text == [] then
      Step(TypeState((s.index + 1) % |texts|, text', false), Delay(s))
    else
      Step(TypeState(s.index, text', s.deleting), Delay(s))
  }

  /** What one tick does in each of its four cases. */
  lemma TickCases(texts: seq<string>, s: TypeState)
    requires s.index < |texts|
    ensures var full := texts[s.index];
      && (!s.deleting && s.text < full ==>
            Tick(texts, s) == Step(s.(text := s.text + [full[|s.text|]]), TypingDelay))
      && (!s.deleting && s.text == full ==>
            Tick(texts, s) == Step(s.(deleting := true), TypingDelay + PauseDelay))
      && (s.deleting && s.text != [] && s.text <= full ==>
            Tick(texts, s) == Step(s.(text := s.text[..|s.text| - 1]), DeletingDelay))
      && (s.deleting && s.text == [] ==>
            Tick(texts, s) == Step(TypeState((s.index + 1) % |texts|, [], false), DeletingDelay))
  {
  }

  /** Whatever state a tick starts from, it leaves the text a prefix of the
      current string. */
  lemma TickValid(texts: seq<string>, s: TypeState)
    requires s.index < |texts|
    ensures Valid(texts, Tick(texts, s).next)
  {
  }

  /** The state after `n` ticks. */
  function Run(texts: seq<string>, s: TypeState, n: nat): (r: TypeState)
    requires s.index < |texts|
    ensures r.index < |texts|
    decreases n
  {
    if n == 0 then s else Run(texts, Tick(texts, s).next, n - 1)
  }

  /** After any tick the index is in range and the text is a prefix of the
      current string, even if it was not before; a valid state stays valid
      forever. */
  lemma {:induction false} RunValid(texts: seq<string>, s: TypeState, n: nat)
    requires s.index < |texts|
    requires n > 0 || Valid(texts, s)
    ensures Valid(texts, Run(texts, s, n))
    decreases n
  {
    if n > 0 {
      var next := Tick(texts, s).next;
      assert Run(texts, s, n) == Run(texts, next, n - 1);
      TickValid(texts, s);
      RunValid(texts, next, n - 1);
    }
  }

  /** The milliseconds `n` ticks take. */
  function RunTime(texts: seq<string>, s: TypeState, n: nat): (ms: nat)
    requires s.index < |texts|
    decreases n
  {
    if n == 0 then 0
    else var st := Tick(texts, s); st.elapsed + RunTime(texts, st.next, n - 1)
  }

  // ---------------------------------------------------------------------------
  // A reference machine that keeps only the length of the shown text.
  // ---------------------------------------------------------------------------

  /** The typewriter with the shown text replaced by its length. */
  datatype Cursor = Cursor(index: nat, len: nat, deleting: bool)

  /** One tick of the length-only machine, written directly from the four
      cases: type one more character, pause and turn around on a complete
      string, delete one character, or move on from an empty one. */
  function CursorTick(texts: seq<string>, c: Cursor): (d: Cursor)
    requires c.index < |texts|
    ensures d.index < |texts|
  {
    var n := |texts[c.index]|;
    if !c.deleting then
      if c.len < n then c.(len := c.len + 1) else c.(deleting := true)
    else if c.len > 0 then c.(len := c.len - 1)
    else Cursor(if c.index + 1 == |texts| then 0 else c.index + 1, 0, false)
  }

  /** The length-only view of a state. */
  function Abstract(s: TypeState): (c: Cursor)
  {
    Cursor(s.index, |s.text|, s.deleting)
  }

  /** The text a cursor stands for. */
  function Concrete(texts: seq<string>, c: Cursor): (s: TypeState)
    requires c.index < |texts| && c.len <= |texts[c.index]|
  {
    TypeState(c.index, texts[c.index][..c.len], c.deleting)
  }

  /** A valid state is exactly its cursor's text: the shown text is always
      the first `len` characters of the current string. */
  lemma ValidIsPrefixOfLength(texts: seq<string>, s: TypeState)
    requires Valid(texts, s)
    ensures |s.text| <= |texts[s.index]|
    ensures Concrete(texts, Abstract(s)) == s
  {
  }

  /** The string machine refines the length-only machine: from any valid
      state, one tick then abstraction equals abstraction then one cursor
      tick. */
  lemma TickRefinesCursorTick(texts: seq<string>, s: TypeState)
    requires Valid(texts, s)
    ensures Abstract(Tick(texts, s).next) == CursorTick(texts, Abstract(s))
    ensures Tick(texts, s).next ==
              Concrete(texts, CursorTick(texts, Abstract(s)))
  {
    var full := texts[s.index];
    var d := CursorTick(texts, Abstract(s));
    var r := Tick(texts, s).next;
    if !s.deleting && s.text < full {
      assert r.text == s.text + [full[|s.text|]];
      assert full[..|s.text| + 1] == full[..|s.text|] + [full[|s.text|]];
    } else if s.deleting && s.text != [] {
      assert full[..|s.text| - 1] == s.text[..|s.text| - 1];
    }
  }

  // ---------------------------------------------------------------------------
  // Whole cycles
  // ---------------------------------------------------------------------------

  /** Running `a` ticks and then `b` more is running `a + b` ticks. */
  lemma {:induction false} RunAdditive(texts: seq<string>, s: TypeState, a: nat, b: nat)
    requires s.index < |texts|
    ensures Run(texts, Run(texts, s, a), b) == Run(texts, s, a + b)
    decreases a
  {
    if a > 0 {
      var next := Tick(texts, s).next;
      RunAdditive(texts, next, a - 1, b);
      assert Run(texts, s, a) == Run(texts, next, a - 1);
      assert Run(texts, s, a + b) == Run(texts, next, a - 1 + b);
    }
  }

  /** Running `a` ticks and then `b` more takes as long as `a + b` ticks. */
  lemma {:induction false} RunTimeAdditive(texts: seq<string>, s: TypeState, a: nat, b: nat)
    requires s.index < |texts|
    ensures RunTime(texts, s, a) + RunTime(texts, Run(texts, s, a), b) ==
              RunTime(texts, s, a + b)
    decreases a
  {
    if a > 0 {
      var st := Tick(texts, s);
      RunTimeAdditive(texts, st.next, a - 1, b);
      assert Run(texts, s, a) == Run(texts, st.next, a - 1);
      assert RunTime(texts, s, a) == st.elapsed + RunTime(texts, st.next, a - 1);
      assert RunTime(texts, s, a + b) == st.elapsed + RunTime(texts, st.next, a - 1 + b);
    }
  }

  /** A run of one tick is that tick. */
  lemma OneTick(texts: seq<string>, s: TypeState)
    requires s.index < |texts|
    ensures Run(texts, s, 1) == Tick(texts, s).next
    ensures RunTime(texts, s, 1) == Tick(texts, s).elapsed
  {
    assert Run(texts, s, 1) == Run(texts, Tick(texts, s).next, 0);
  }

  /** Typing from the first `k` characters reaches the complete string after
      `|full| - k` ticks of 100 ms each. */
  lemma {:induction false} TypingCompletes(texts: seq<string>, i: nat, k: nat)
    requires i < |texts| && k <= |texts[i]|
    ensures Run(texts, TypeState(i, texts[i][..k], false), |texts[i]| - k) ==
              TypeState(i, texts[i], false)
    ensures RunTime(texts, TypeState(i, texts[i][..k], false), |texts[i]| - k) ==
              (|texts[i]| - k) * TypingDelay
    decreases |texts[i]| - k
  {
    var full := texts[i];
    var s := TypeState(i, full[..k], false);
    if k == |full| {
      assert full[..k] == full;
    } else {
      assert full[..k] < full;
      assert full[..k] + [full[k]] == full[..k + 1];
      assert Tick(texts, s).next == TypeState(i, full[..k + 1], false);
      TypingCompletes(texts, i, k + 1);
    }
  }

  /** Deleting from the first `k` characters reaches the empty string after
      `k` ticks of 50 ms each, still deleting and still on the same string. */
  lemma {:induction false} DeletingEmpties(texts: seq<string>, i: nat, k: nat)
    requires i < |texts| && k <= |texts[i]|
    ensures Run(texts, TypeState(i, texts[i][..k], true), k) == TypeState(i, [], true)
    ensures RunTime(texts, TypeState(i, texts[i][..k], true), k) == k * DeletingDelay
    decreases k
  {
    var full := texts[i];
    var s := TypeState(i, full[..k], true);
    if k > 0 {
      assert full[..k][..k - 1] == full[..k - 1];
      assert Tick(texts, s).next == TypeState(i, full[..k - 1], true);
      DeletingEmpties(texts, i, k - 1);
    }
  }

  /** From an empty, typing state: `|full|` typing ticks and one pausing
      tick leave the complete string on screen with deletion about to start. */
  lemma TypeThenPause(texts: seq<string>, i: nat)
    requires i < |texts|
    ensures var n := |texts[i]|;
      && Run(texts, TypeState(i, [], false), n + 1) == TypeState(i, texts[i], true)
      && RunTime(texts, TypeState(i, [], false), n + 1) ==
           n * TypingDelay + TypingDelay + PauseDelay
  {
    var full := texts[i];
    var n := |full|;
    var s0 := TypeState(i, [], false);
    var typed := TypeState(i, full, false);
    assert full[..0] == [] && full[..n] == full;
    TypingCompletes(texts, i, 0);
    TickCases(texts, typed);
    OneTick(texts, typed);
    RunAdditive(texts, s0, n, 1);
    RunTimeAdditive(texts, s0, n, 1);
  }

  /** From the complete string, deleting: `|full|` deleting ticks and one tick
      on the empty string leave the next string's empty, typing state. */
  lemma DeleteThenAdvance(texts: seq<string>, i: nat)
    requires i < |texts|
    ensures var n := |texts[i]|;
      && Run(texts, TypeState(i, texts[i], true), n + 1) ==
           TypeState((i + 1) % |texts|, [], false)
      && RunTime(texts, TypeState(i, texts[i], true), n + 1) ==
           n * DeletingDelay + DeletingDelay
  {
    var full := texts[i];
    var n := |full|;
    var paused := TypeState(i, full, true);
    var emptied := TypeState(i, [], true);
    assert full[..n] == full;
    DeletingEmpties(texts, i, n);
    TickCases(texts, emptied);
    OneTick(texts, emptied);
    RunAdditive(texts, paused, n, 1);
    RunTimeAdditive(texts, paused, n, 1);
  }

  /** One full cycle on string `i`: from an empty, typing state, the machine
      types the whole string, pauses, deletes it, and after one more tick on
      the empty string is typing the next string (wrapping after the last),
      taking `2|full| + 2` ticks and `150|full| + 2150` ms. */
  lemma {:induction false} FullCycle(texts: seq<string>, i: nat)
    requires i < |texts|
    ensures var n := |texts[i]|;
      && Run(texts, TypeState(i, [], false), 2 * n + 2) ==
           TypeState((i + 1) % |texts|, [], false)
      && RunTime(texts, TypeState(i, [], false), 2 * n + 2) ==
           n * TypingDelay + PauseDelay + TypingDelay + n * DeletingDelay + DeletingDelay
  {
    var n := |texts[i]|;
    var s0 := TypeState(i, [], false);
    TypeThenPause(texts, i);
    DeleteThenAdvance(texts, i);
    RunAdditive(texts, s0, n + 1, n + 1);
    RunTimeAdditive(texts, s0, n + 1, n + 1);
  }

  /** Whatever the strings, the index stays in range and the text stays a
      prefix of the current string forever, starting from mount. */
  lemma InitialValidForever(texts: seq<string>, n: nat)
    requires |texts| > 0
    ensures Valid(texts, Run(texts, Initial, n))
  {
    RunValid(texts, Initial, n);
  }

  /** With two strings, the machine moves from the first string to the
      second after one cycle, and is back at its mount state after two. */
  lemma TwoStringCycle(texts: seq<string>)
    requires |texts| == 2
    ensures var a, b := 2 * |texts[0]| + 2, 2 * |texts[1]| + 2;
      && Run(texts, Initial, a) == TypeState(1, [], false)
      && Run(texts, Initial, a + b) == Initial
  {
    var a, b := 2 * |texts[0]| + 2, 2 * |texts[1]| + 2;
    FullCycle(texts, 0);
    FullCycle(texts, 1);
    RunAdditive(texts, Initial, a, b);
  }

  /** The two strings the welcome section shows. */
  const WelcomeTexts: seq<string> := ["Full Stack Developer ", "Problem Solver "]

  /** On the welcome section's strings a first cycle takes 44 ticks and the
      second 32, after which the machine is back at its mount state. */
  lemma WelcomeTextsCycle()
    ensures Run(WelcomeTexts, Initial, 44) == TypeState(1, [], false)
    ensures Run(WelcomeTexts, Initial, 76) == Initial
  {
    assert |WelcomeTexts[0]| == 21 && |WelcomeTexts[1]| == 15;
    TwoStringCycle(WelcomeTexts);
  }
}
