/**
  The recent turns of each session: what the ring keeps, and the two reads that
  trim it to a budget, one from the old end and one from the new.
*/
module ConversationWindows {

  datatype Role = User | Assistant

  datatype Turn = Turn(role: Role, text: string)

  type SessionId = nat

  const WINDOW_MAX_TURNS: nat := 16
  const WINDOW_CHAR_BUDGET: nat := 4000

  // ---- Suffixes ----

  /** The last `n` elements, or all of them. */
  function Last<T>(s: seq<T>, n: nat): (r: seq<T>)
    ensures |r| == if n < |s| then n else |s|
  {
    if n < |s| then s[|s| - n..] else s
  }

  /** The longest suffix that fits; the empty one is allowed whether it fits or not. */
  ghost predicate LongestFitting<T>(kept: seq<T>, all: seq<T>, fits: seq<T> -> bool) {
    && |kept| <= |all| && kept == Last(all, |kept|)
    && (kept != [] ==> fits(kept))
    && NoneLonger(all, |kept|, fits)
  }

  ghost predicate NoneLonger<T>(all: seq<T>, n: nat, fits: seq<T> -> bool) {
    forall k :: n < k <= |all| ==> !fits(Last(all, k))
  }

  lemma OneShorter<T>(all: seq<T>, n: nat, fits: seq<T> -> bool)
    requires 0 < n <= |all| && NoneLonger(all, n, fits) && !fits(Last(all, n))
    ensures NoneLonger(all, n - 1, fits) && Last(all, n)[1..] == Last(all, n - 1)
  {
  }

  lemma LongestFittingUnique<T>(a: seq<T>, b: seq<T>, all: seq<T>, fits: seq<T> -> bool)
    requires LongestFitting(a, all, fits) && LongestFitting(b, all, fits)
    ensures a == b
  {
    assert a == Last(all, |a|) && b == Last(all, |b|);
  }

  lemma TakeIsLast<T>(s: seq<T>, n: nat)
    ensures s[|s| - (if n < |s| then n else |s|)..] == Last(s, n)
  {
  }

  lemma LastOfLast<T>(s: seq<T>, x: T, n: nat)
    ensures Last(Last(s, n) + [x], n) == Last(s + [x], n)
  {
  }

  // ---- Sizes ----

  /** How many bytes a character takes in UTF-8 (section 3 of RFC 3629). */
  function Utf8Size(c: char): nat {
    if c as nat < 0x80 then 1 else if c as nat < 0x800 then 2 else if c as nat < 0x1_0000 then 3 else 4
  }

  /** The least of one to four bytes whose free bits hold the character's number. */
  lemma Utf8SizeIsLeast(c: char, capacity: seq<nat>)
    requires capacity == [0x80, 0x800, 0x1_0000, 0x20_0000]
    ensures 1 <= Utf8Size(c) <= 4 && c as nat < capacity[Utf8Size(c) - 1]
    ensures forall n :: 0 <= n < Utf8Size(c) - 1 ==> c as nat >= capacity[n]
  {
  }

  function ByteLen(s: string): nat {
    if s == "" then 0 else Utf8Size(s[0]) + ByteLen(s[1..])
  }

  lemma {:induction false} ByteLenSplits(a: string, b: string)
    ensures ByteLen(a + b) == ByteLen(a) + ByteLen(b)
  {
    if a == "" {
      assert a + b == b;
    } else {
      assert (a + b)[1..] == a[1..] + b;
      ByteLenSplits(a[1..], b);
    }
  }

  /** A character takes at least one byte. */
  lemma {:induction false} CharsWithinBytes(s: string)
    ensures |s| <= ByteLen(s)
  {
    if s != "" { CharsWithinBytes(s[1..]); }
  }

  function Chars(turns: seq<Turn>): nat {
    if turns == [] then 0 else |turns[0].text| + Chars(turns[1..])
  }

  lemma {:induction false} CharsSplit(a: seq<Turn>, b: seq<Turn>)
    ensures Chars(a + b) == Chars(a) + Chars(b)
  {
    if a == [] {
      assert a + b == b;
    } else {
      assert (a + b)[1..] == a[1..] + b;
      CharsSplit(a[1..], b);
    }
  }

  lemma LongerIsLonger(turns: seq<Turn>, n: nat)
    ensures forall k :: n <= k ==> Chars(Last(turns, n)) <= Chars(Last(turns, k))
  {
    forall k | n <= k ensures Chars(Last(turns, n)) <= Chars(Last(turns, k)) {
      var more := Last(turns, k);
      var cut := |more| - |Last(turns, n)|;
      assert more == more[..cut] + Last(turns, n);
      CharsSplit(more[..cut], Last(turns, n));
    }
  }

  // ---- The assembled text ----

  function Label(r: Role): string {
    if r.User? then "user" else "assistant"
  }

  function Spoken(t: Turn): string {
    Label(t.role) + ": " + t.text
  }

  function Rendered(turns: seq<Turn>): string {
    if turns == [] then ""
    else if |turns| == 1 then Spoken(turns[0])
    else Rendered(turns[..|turns| - 1]) + "\n" + Spoken(turns[|turns| - 1])
  }

  function Tail(current: string): string {
    "\n" + "user" + ": " + current
  }

  function FitsBytes(budget: nat, current: string): seq<Turn> -> bool {
    kept => ByteLen(Rendered(kept)) + ByteLen(Tail(current)) <= budget
  }

  function FitsChars(budget: nat): seq<Turn> -> bool {
    kept => Chars(kept) <= budget
  }

  function WithCurrent(kept: seq<Turn>, current: string): string {
    if kept == [] then current else Rendered(kept) + Tail(current)
  }

  /** The text to embed: the longest fitting run of the asked-for turns, then `current` whole. */
  ghost predicate Assembled(turns: seq<Turn>, windowTurns: nat, budget: nat, current: string, out: string) {
    Trimmed(Last(turns, if windowTurns > 0 then windowTurns - 1 else 0), budget, current, out)
  }

  ghost predicate Trimmed(asked: seq<Turn>, budget: nat, current: string, out: string) {
    exists kept :: LongestFitting(kept, asked, FitsBytes(budget, current)) && out == WithCurrent(kept, current)
  }

  /** Turn by turn, a line each, with who said it. */
  lemma RenderedSnoc(turns: seq<Turn>, t: Turn)
    ensures Rendered(turns + [t])
         == (if turns == [] then "" else Rendered(turns) + "\n") + (match t.role case User => "user: " case Assistant => "assistant: ") + t.text
  {
    assert (turns + [t])[..|turns|] == turns;
    assert "user" + ": " == "user: " && "assistant" + ": " == "assistant: ";
    hide Rendered;
    assert "" + Spoken(t) == Spoken(t);
  }

  /** With turns before it, `current` is written and measured as the user's next turn. */
  lemma CurrentIsNextTurn(kept: seq<Turn>, current: string, budget: nat)
    requires kept != []
    ensures WithCurrent(kept, current) == Rendered(kept + [Turn(User, current)])
    ensures FitsBytes(budget, current)(kept) <==> ByteLen(Rendered(kept + [Turn(User, current)])) <= budget
  {
    RenderedSnoc(kept, Turn(User, current));
    ByteLenSplits(Rendered(kept), Tail(current));
    hide Rendered, ByteLen;
    assert Tail(current) == "\n" + "user: " + current;
    assert Rendered(kept) + ("\n" + "user: " + current) == Rendered(kept) + "\n" + "user: " + current;
  }

  /** So it always ends with `current`, and is within budget unless it is `current` alone. */
  lemma AssembledLaw(turns: seq<Turn>, windowTurns: nat, budget: nat, current: string, out: string)
    requires Assembled(turns, windowTurns, budget, current, out)
    ensures |current| <= |out| && out[|out| - |current|..] == current
    ensures out == current || (ByteLen(out) <= budget && |out| <= budget)
  {
    CharsWithinBytes(out);
    var kept :| LongestFitting(kept, Last(turns, if windowTurns > 0 then windowTurns - 1 else 0),
      FitsBytes(budget, current)) && out == WithCurrent(kept, current);
    EndsWithCurrent(kept, current);
    hide Rendered, Tail, ByteLen, WithCurrent;
  }

  // ---- Bytes, where the budget is documented in characters ----

  function FitsText(budget: nat, current: string): seq<Turn> -> bool {
    kept => |Rendered(kept)| + |Tail(current)| <= budget
  }

  lemma FittingBytesFitText(budget: nat, current: string)
    ensures forall kept :: FitsBytes(budget, current)(kept) ==> FitsText(budget, current)(kept)
  {
    forall kept ensures FitsBytes(budget, current)(kept) ==> FitsText(budget, current)(kept) {
      CharsWithinBytes(Rendered(kept));
      CharsWithinBytes(Tail(current));
    }
  }

  /**
    What is kept is what a budget in characters would keep exactly when that
    run of turns, if there is one, also fits in bytes.
  */
  lemma KeepsLikeCharactersIff(all: seq<Turn>, budget: nat, current: string, inBytes: seq<Turn>, inChars: seq<Turn>)
    requires LongestFitting(inBytes, all, FitsBytes(budget, current))
    requires LongestFitting(inChars, all, FitsText(budget, current))
    ensures inBytes == inChars <==> inChars == [] || FitsBytes(budget, current)(inChars)
    ensures |inBytes| <= |inChars|
  {
    FittingBytesFitText(budget, current);
    if inChars == [] || FitsBytes(budget, current)(inChars) {
      LongestFittingUnique(inBytes, inChars, all, FitsBytes(budget, current));
    }
  }

  /** One accented letter: the turn fits fifteen characters and is dropped. */
  lemma AccentIsDropped()
    ensures var all := [Turn(User, "\U{00E9}")];
      && LongestFitting(all, all, FitsText(15, "q"))
      && LongestFitting([], all, FitsBytes(15, "q"))
      && Assembled(all, 2, 15, "q", "q")
  {
    AccentSizes();
    hide Rendered, Tail, ByteLen, Spoken;
    var t := Turn(User, "\U{00E9}");
    assert Last([t], 1) == [t];
    assert LongestFitting([], [t], FitsBytes(15, "q"));
    assert WithCurrent([], "q") == "q";
  }

  lemma AccentSizes()
    ensures var text := Rendered([Turn(User, "\U{00E9}")]);
      |text| == 7 && ByteLen(text) == 8 && |Tail("q")| == ByteLen(Tail("q")) == 8
  {
    LetterBytes("\U{00E9}");
    LabelBytes();
    TailBytes();
    hide ByteLen, Tail;
    assert Rendered([Turn(User, "\U{00E9}")]) == "user: " + "\U{00E9}";
    hide Rendered;
    ByteLenSplits("user: ", "\U{00E9}");
  }

  lemma LetterBytes(s: string)
    requires |s| == 1
    ensures ByteLen(s) == Utf8Size(s[0])
  {
    assert s[1..] == "";
  }

  lemma LabelBytes()
    ensures ByteLen("user: ") == |"user: "| == 6
  {
    AsciiBytes("user: ");
  }

  lemma TailBytes()
    ensures ByteLen(Tail("q")) == |Tail("q")| == 8
  {
    assert Tail("q") == "\nuser: q";
    hide ByteLen;
    AsciiBytes("\nuser: q");
  }

  lemma {:induction false} AsciiBytes(s: string)
    requires forall i :: 0 <= i < |s| ==> s[i] as nat < 0x80
    ensures ByteLen(s) == |s|
  {
    if s != "" { AsciiBytes(s[1..]); }
  }

  lemma EndsWithCurrent(kept: seq<Turn>, current: string)
    ensures var out := WithCurrent(kept, current);
      && |current| <= |out| && out[|out| - |current|..] == current
      && (out == current || ByteLen(out) == ByteLen(Rendered(kept)) + ByteLen(Tail(current)))
    ensures kept == [] ==> WithCurrent(kept, current) == current
  {
    hide Rendered;
    if kept != [] {
      ByteLenSplits(Rendered(kept), Tail(current));
      hide ByteLen;
      var out := Rendered(kept) + Tail(current);
      assert out == (Rendered(kept) + "\nuser: ") + current;
    }
  }

  lemma PriorIsLast(turns: seq<Turn>, windowTurns: nat, take: nat, budget: nat, current: string, out: string)
    requires windowTurns > 0 && take == if windowTurns - 1 < |turns| then windowTurns - 1 else |turns|
    requires Trimmed(turns[|turns| - take..], budget, current, out)
    ensures Assembled(turns, windowTurns, budget, current, out)
  {
    hide Trimmed;
    TakeIsLast(turns, windowTurns - 1);
  }

  lemma NothingKept(turns: seq<Turn>, windowTurns: nat, budget: nat, current: string)
    requires windowTurns <= 1 || turns == []
    ensures Assembled(turns, windowTurns, budget, current, current)
  {
    var all := Last(turns, if windowTurns > 0 then windowTurns - 1 else 0);
    assert all == [];
    assert LongestFitting([], all, FitsBytes(budget, current)) && current == WithCurrent([], current);
  }

  /** The text is determined by what was asked for. */
  lemma AssembledUnique(turns: seq<Turn>, windowTurns: nat, budget: nat, current: string, a: string, b: string)
    requires Assembled(turns, windowTurns, budget, current, a) && Assembled(turns, windowTurns, budget, current, b)
    ensures a == b
  {
    var all := Last(turns, if windowTurns > 0 then windowTurns - 1 else 0);
    var x :| LongestFitting(x, all, FitsBytes(budget, current)) && a == WithCurrent(x, current);
    var y :| LongestFitting(y, all, FitsBytes(budget, current)) && b == WithCurrent(y, current);
    LongestFittingUnique(x, y, all, FitsBytes(budget, current));
  }

  method Render(prior: seq<Turn>) returns (out: string)
    ensures out == Rendered(prior) && (out == "" <==> prior == [])
  {
    out := "";
    for i := 0 to |prior|
      invariant out == Rendered(prior[..i]) && (out == "" <==> i == 0)
    {
      assert prior[..i + 1][..i] == prior[..i];
      if out != "" {
        out := out + "\n";
      }
      out := out + Spoken(prior[i]);
    }
    assert prior[..|prior|] == prior;
  }

  class ConversationWindow {
    var turns: seq<Turn>
    const maxTurns: nat
    const charBudget: nat

    ghost predicate Valid()
      reads this
    {
      1 <= maxTurns && |turns| <= maxTurns
    }

    constructor WithCaps(maxTurns: nat, charBudget: nat)
      ensures Valid() && turns == [] && this.charBudget == charBudget
      ensures this.maxTurns == if maxTurns < 1 then 1 else maxTurns
    {
      turns := [];
      this.maxTurns := if maxTurns < 1 then 1 else maxTurns;
      this.charBudget := charBudget;
    }

    method Push(role: Role, text: string)
      requires Valid()
      modifies this
      ensures Valid()
      ensures turns == Last(old(turns) + [Turn(role, text)], maxTurns)
    {
      turns := turns + [Turn(role, text)];
      ghost var all := turns;
      while |turns| > maxTurns
        invariant |turns| >= if |all| < maxTurns then |all| else maxTurns
        invariant turns == Last(all, |turns|) && |turns| <= |all|
      {
        turns := turns[1..];
      }
    }

    method Assemble(windowTurns: nat, current: string) returns (out: string)
      requires Valid()
      ensures Assembled(turns, windowTurns, charBudget, current, out)
    {
      hide Assembled, Trimmed;
      if windowTurns <= 1 || turns == [] {
        NothingKept(turns, windowTurns, charBudget, current);
        return current;
      }
      var wantPrior := windowTurns - 1;
      var take := if wantPrior < |turns| then wantPrior else |turns|;
      out := DropOldest(turns[|turns| - take..], charBudget, current);
      PriorIsLast(turns, windowTurns, take, charBudget, current, out);
    }
  }

  /** Drops the oldest turn until the rest fits, and writes that before `current`. */
  method DropOldest(asked: seq<Turn>, charBudget: nat, current: string) returns (out: string)
    ensures Trimmed(asked, charBudget, current, out)
  {
    ghost var fits := FitsBytes(charBudget, current);
    var prior := asked;
    var currentTail := Tail(current);
    hide NoneLonger, Rendered, ByteLen, Tail;
    assert NoneLonger(asked, |prior|, fits) by { NoneLongerThanAll(asked, fits); }
    while true
      invariant |prior| <= |asked| && prior == Last(asked, |prior|) && NoneLonger(asked, |prior|, fits)
      decreases |prior|
    {
      out := Render(prior);
      if ByteLen(out) + ByteLen(currentTail) <= charBudget || prior == [] {
        assert LongestFitting(prior, asked, fits);
        if out != "" {
          out := out + currentTail;
        } else {
          out := current;
        }
        assert out == WithCurrent(prior, current);
        return out;
      }
      OneShorter(asked, |prior|, fits);
      prior := prior[1..];
    }
  }

  lemma NoneLongerThanAll<T>(all: seq<T>, fits: seq<T> -> bool)
    ensures NoneLonger(all, |all|, fits)
  {
  }

  // ---- All sessions ----

  /** The turns a completed exchange adds: an empty side adds none. */
  function Exchange(userText: string, assistantText: string): seq<Turn> {
    (if userText != "" then [Turn(User, userText)] else [])
    + (if assistantText != "" then [Turn(Assistant, assistantText)] else [])
  }

  /** What a session heard from an exchange: the user first, and of each side only what was said. */
  lemma ExchangeInOrder(userText: string, assistantText: string)
    requires userText != "" && assistantText != ""
    ensures Exchange(userText, assistantText) == [Turn(User, userText), Turn(Assistant, assistantText)]
    ensures Exchange(userText, "") == [Turn(User, userText)] && Exchange("", assistantText) == [Turn(Assistant, assistantText)]
    ensures Exchange("", "") == []
  {
  }

  type Record = map<SessionId, seq<Turn>>

  ghost function Heard(heard: Record, id: SessionId): seq<Turn> {
    if id in heard then heard[id] else []
  }

  ghost function Extended(heard: Record, id: SessionId, more: seq<Turn>): Record {
    if more == [] then heard else heard[id := Heard(heard, id) + more]
  }

  lemma ExtendedTwice(heard: Record, id: SessionId, a: seq<Turn>, b: seq<Turn>)
    ensures Extended(Extended(heard, id, a), id, b) == Extended(heard, id, a + b)
    ensures Extended(heard[id := Heard(heard, id)], id, a) == if a == [] then heard[id := Heard(heard, id)] else Extended(heard, id, a)
  {
    assert a + [] == a && [] + b == b;
    assert Heard(heard, id) + (a + b) == Heard(heard, id) + a + b;
  }

  class SharedWindows {
    var windows: map<SessionId, ConversationWindow>
    /** Every turn each session has recorded, for ever. */
    ghost var heard: Record

    ghost predicate Valid()
      reads this, windows.Values
    {
      && heard.Keys == windows.Keys
      && (forall a, b :: a in windows && b in windows && a != b ==> windows[a] != windows[b])
      && forall id :: id in windows ==>
           && windows[id].Valid()
           && windows[id].maxTurns == WINDOW_MAX_TURNS && windows[id].charBudget == WINDOW_CHAR_BUDGET
           && windows[id].turns == Last(heard[id], WINDOW_MAX_TURNS)
    }

    constructor ()
      ensures Valid() && heard == map[] && windows == map[]
    {
      windows := map[];
      heard := map[];
    }

    /** A window always holds the last turns of all its session ever recorded, and no other session's. */
    method RecordTurn(id: SessionId, userText: string, assistantText: string)
      requires Valid()
      modifies this, windows.Values
      ensures Valid() && fresh(windows.Values - old(windows.Values))
      ensures heard == Extended(old(heard), id, Exchange(userText, assistantText))
    {
      if userText == "" && assistantText == "" {
        return;
      }
      OrInsert(id);
      ghost var first: seq<Turn> := [];
      ghost var second: seq<Turn> := [];
      ExtendedTwice(old(heard), id, Exchange(userText, assistantText), []);
      ghost var started := heard;
      if userText != "" {
        PushTo(id, User, userText);
        first := [Turn(User, userText)];
      }
      assert heard == Extended(started, id, first);
      if assistantText != "" {
        PushTo(id, Assistant, assistantText);
        second := [Turn(Assistant, assistantText)];
      }
      ExtendedTwice(started, id, first, second);
      assert first + second == Exchange(userText, assistantText);
    }

    method OrInsert(id: SessionId)
      requires Valid()
      modifies this
      ensures Valid() && fresh(windows.Values - old(windows.Values))
      ensures id in windows && heard == old(heard)[id := Heard(old(heard), id)]
    {
      if id !in windows {
        var w := new ConversationWindow.WithCaps(WINDOW_MAX_TURNS, WINDOW_CHAR_BUDGET);
        windows := windows[id := w];
        heard := heard[id := []];
      }
    }

    method PushTo(id: SessionId, role: Role, text: string)
      requires Valid() && id in windows
      modifies this`heard, windows[id]
      ensures Valid()
      ensures heard == Extended(old(heard), id, [Turn(role, text)])
    {
      LastOfLast(heard[id], Turn(role, text), WINDOW_MAX_TURNS);
      windows[id].Push(role, text);
      heard := heard[id := heard[id] + [Turn(role, text)]];
    }

    /** What a new turn is seeded with: the longest run of the latest turns asked for that fits, oldest first. */
    method PriorTurns(id: SessionId, maxMessages: nat) returns (picked: seq<Turn>)
      requires Valid()
      ensures LongestFitting(picked, Last(Last(Heard(heard, id), WINDOW_MAX_TURNS), maxMessages), FitsChars(WINDOW_CHAR_BUDGET))
    {
      if maxMessages == 0 || id !in windows {
        return [];
      }
      picked := LatestWithin(windows[id].turns, maxMessages, WINDOW_CHAR_BUDGET);
    }
  }

  /** Newest first, until one does not fit what is left of the budget. */
  method LatestWithin(turns: seq<Turn>, maxMessages: nat, charBudget: nat) returns (picked: seq<Turn>)
    ensures LongestFitting(picked, Last(turns, maxMessages), FitsChars(charBudget))
  {
    ghost var asked := Last(turns, maxMessages);
    var take := if maxMessages < |turns| then maxMessages else |turns|;
    picked := [];
    var budget: nat := charBudget;
    for i := 0 to take
      invariant |picked| == i && picked == Last(asked, i)
      invariant Chars(picked) + budget == charBudget
    {
      var turn := turns[|turns| - 1 - i];
      OneMore(turns, maxMessages, i);
      if |turn.text| > budget {
        TooMany(asked, i, charBudget);
        return;
      }
      budget := budget - |turn.text|;
      picked := [turn] + picked;
    }
  }

  lemma OneMore(turns: seq<Turn>, n: nat, i: nat)
    requires i < n && i < |turns|
    ensures var more := [turns[|turns| - 1 - i]] + Last(Last(turns, n), i);
      Last(Last(turns, n), i + 1) == more
      && Chars(more) == |turns[|turns| - 1 - i].text| + Chars(Last(Last(turns, n), i))
  {
    assert ([turns[|turns| - 1 - i]] + Last(Last(turns, n), i))[1..] == Last(Last(turns, n), i);
  }

  lemma TooMany(all: seq<Turn>, n: nat, budget: nat)
    requires n < |all| && Chars(Last(all, n)) <= budget < Chars(Last(all, n + 1))
    ensures LongestFitting(Last(all, n), all, FitsChars(budget))
  {
    LongerIsLonger(all, n + 1);
  }
}
