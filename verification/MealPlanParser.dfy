/** `parse_meal_plan_response`: a line-by-line, two-mode reader of the model's
    meal-plan text. Before a `Shopping List:` header it collects `Day N: ...`
    lines into the meal plan; after it, `-` and `*` bullet lines into the
    shopping list. The two regular expressions are written out as matchers. */
module MealPlanParser {
  import opened Wrappers
  import opened PyStrings

  // ------------------------------------------------------------- patterns

  /** `c` matches the lower-case pattern letter `p` under `re.IGNORECASE`: its
      lower-case form is `p`, or it is one of the extra equivalents Python's
      regex engine knows for `s` (long s) and `i` (dotless i, dotted capital I). */
  predicate MatchesIgnoreCase(c: char, p: char)
  {
    || LowerChar(c) == p
    || (p == 's' && c == '\U{017F}')
    || (p == 'i' && (c == '\U{0131}' || c == '\U{0130}'))
  }

  const ShoppingListHeader: string := "shopping list:"

  /** `word` spells `pattern`, letter by letter, ignoring case. */
  predicate MatchesWord(word: string, pattern: string)
  {
    |word| == |pattern| && (word == [] || (MatchesIgnoreCase(word[0], pattern[0]) && MatchesWord(word[1..], pattern[1..])))
  }

  /** `line[i..]` starts with `Shopping List:`, ignoring case. */
  predicate HeaderAt(line: string, i: nat)
  {
    i + |ShoppingListHeader| <= |line| && MatchesWord(line[i..i + |ShoppingListHeader|], ShoppingListHeader)
  }

  /** The search the regex engine makes: try each start position from `i` on. */
  predicate HeaderFrom(line: string, i: nat)
    decreases |line| - i
  {
    i + |ShoppingListHeader| <= |line| && (HeaderAt(line, i) || HeaderFrom(line, i + 1))
  }

  /** `SHOPPING_LIST_HEADER_PATTERN.search(line)`. */
  predicate HasShoppingListHeader(line: string)
  {
    HeaderFrom(line, 0)
  }

  lemma {:induction false} HeaderFromIff(line: string, i: nat)
    ensures HeaderFrom(line, i) <==> exists j: nat :: i <= j && HeaderAt(line, j)
    decreases |line| - i
  {
    if i + |ShoppingListHeader| <= |line| {
      HeaderFromIff(line, i + 1);
      if !HeaderAt(line, i) && exists j: nat :: i <= j && HeaderAt(line, j) {
        var j: nat :| i <= j && HeaderAt(line, j);
        assert i + 1 <= j;
      }
    }
  }

  /** The search finds the header exactly when it occurs at some position of the line. */
  lemma HeaderSearchIff(line: string)
    ensures HasShoppingListHeader(line) <==> exists j: nat :: HeaderAt(line, j)
  {
    HeaderFromIff(line, 0);
  }

  /** The end of the run of whitespace starting at `i`. */
  function SkipSpaces(s: string, i: nat): (j: nat)
    requires i <= |s|
    ensures i <= j <= |s|
    ensures forall k :: i <= k < j ==> IsSpace(s[k])
    ensures j == |s| || !IsSpace(s[j])
    decreases |s| - i
  {
    if i < |s| && IsSpace(s[i]) then SkipSpaces(s, i + 1) else i
  }

  /** The end of the run of digits starting at `i`. */
  function SkipDigits(s: string, i: nat): (j: nat)
    requires i <= |s|
    ensures i <= j <= |s|
    ensures forall k :: i <= k < j ==> IsDigit(s[k])
    ensures j == |s| || !IsDigit(s[j])
    decreases |s| - i
  {
    if i < |s| && IsDigit(s[i]) then SkipDigits(s, i + 1) else i
  }

  /** The prefix of `s` before its first newline (`.` does not match a newline). */
  function UpToNewline(s: string): (r: string)
    ensures '\n' !in r
    ensures r <= s && (|r| < |s| ==> s[|r|] == '\n')
    ensures '\n' !in s ==> r == s
  {
    if s == [] || s[0] == '\n' then [] else [s[0]] + UpToNewline(s[1..])
  }

  /** The meal text the day pattern yields for what follows the colon: `\s*`
      takes the leading whitespace, `(.*)` the rest of that line, then `.strip()`. */
  function MealText(rest: string): string
  {
    Strip(UpToNewline(StripLeft(rest)))
  }

  /** The two captures of the day pattern: the digit string and the meal text. */
  datatype DayMatch = DayMatch(day: string, meal: string)

  /** `MEAL_PLAN_DAY_PATTERN.match(line)` for `Day\s+(\d+):\s*(.*)`, ignoring case,
      anchored at the start of the line. */
  function MatchDay(line: string): Option<DayMatch>
  {
    if |line| >= 3 && MatchesIgnoreCase(line[0], 'd') && MatchesIgnoreCase(line[1], 'a')
       && MatchesIgnoreCase(line[2], 'y')
    then
      var a := SkipSpaces(line, 3);
      var b := SkipDigits(line, a);
      if a == 3 || b == a || b == |line| || line[b] != ':' then None
      else Some(DayMatch(line[a..b], MealText(line[b + 1..])))
    else None
  }

  /** `line` has the day pattern's shape with the digits at `line[a..b]`:
      `Day`, whitespace `line[3..a]`, digits, then a colon at `b`. */
  predicate DayShape(line: string, a: nat, b: nat)
  {
    && 3 < a < b < |line|
    && MatchesIgnoreCase(line[0], 'd') && MatchesIgnoreCase(line[1], 'a') && MatchesIgnoreCase(line[2], 'y')
    && (forall k :: 3 <= k < a ==> IsSpace(line[k]))
    && (forall k :: a <= k < b ==> IsDigit(line[k]))
    && line[b] == ':'
  }

  /** The day matcher accepts exactly the lines of the day pattern's shape, and
      then captures the digits as written and the meal text after the colon. */
  lemma MatchDayIff(line: string)
    ensures MatchDay(line).Some? <==> exists a: nat, b: nat :: DayShape(line, a, b)
    ensures forall a: nat, b: nat :: DayShape(line, a, b) ==>
              MatchDay(line) == Some(DayMatch(line[a..b], MealText(line[b + 1..])))
  {
    if MatchDay(line).Some? {
      var a := SkipSpaces(line, 3);
      var b := SkipDigits(line, a);
      assert DayShape(line, a, b);
    }
    forall a: nat, b: nat | DayShape(line, a, b)
      ensures MatchDay(line) == Some(DayMatch(line[a..b], MealText(line[b + 1..])))
    {
      assert !IsSpace(line[a]);
      assert SkipSpaces(line, 3) == a;
      assert SkipDigits(line, a) == b;
    }
  }

  /** On a line without a newline, the meal text is the text after the colon, stripped. */
  lemma MealTextOfLine(rest: string)
    requires '\n' !in rest
    ensures MealText(rest) == Strip(rest)
  {
    StripLeftSpec(rest);
    var l := StripLeft(rest);
    assert '\n' !in l by {
      assert l == rest[|rest| - |l|..];
      forall k | 0 <= k < |l| ensures l[k] != '\n' { assert l[k] == rest[|rest| - |l| + k]; }
    }
    assert StripLeft(l) == l;
  }

  // ------------------------------------------------------ the meal plan dict

  /** One entry of the `meal_plan` dict, e.g. `"Day 1" -> "Pasta"`. */
  datatype DayEntry = DayEntry(key: string, meal: string)

  /** `plan[key] = meal` on a dict that keeps insertion order: an existing key
      keeps its place and takes the new value, a new key goes last. */
  function Put(plan: seq<DayEntry>, key: string, meal: string): seq<DayEntry>
  {
    if plan == [] then [DayEntry(key, meal)]
    else if plan[0].key == key then [DayEntry(key, meal)] + plan[1..]
    else [plan[0]] + Put(plan[1..], key, meal)
  }

  function Lookup(plan: seq<DayEntry>, key: string): Option<string>
  {
    if plan == [] then None
    else if plan[0].key == key then Some(plan[0].meal)
    else Lookup(plan[1..], key)
  }

  predicate UniqueKeys(plan: seq<DayEntry>)
  {
    forall i, j :: 0 <= i < j < |plan| ==> plan[i].key != plan[j].key
  }

  /** After `plan[key] = meal`, `key` maps to `meal`, every other key keeps its
      value, keys stay unique, and the dict grows only for a new key. */
  lemma {:induction false} PutSpec(plan: seq<DayEntry>, key: string, meal: string, other: string)
    requires UniqueKeys(plan)
    ensures UniqueKeys(Put(plan, key, meal))
    ensures Lookup(Put(plan, key, meal), key) == Some(meal)
    ensures other != key ==> Lookup(Put(plan, key, meal), other) == Lookup(plan, other)
    ensures |Put(plan, key, meal)| == if Lookup(plan, key).Some? then |plan| else |plan| + 1
  {
    if plan != [] && plan[0].key != key {
      var tail := plan[1..];
      assert UniqueKeys(tail) by {
        forall i, j | 0 <= i < j < |tail| ensures tail[i].key != tail[j].key {
          assert tail[i] == plan[i + 1] && tail[j] == plan[j + 1];
        }
      }
      PutSpec(tail, key, meal, other);
      var rest := Put(tail, key, meal);
      KeysOfPut(tail, key, meal);
      forall j | 0 <= j < |rest| ensures rest[j].key != plan[0].key {
        if rest[j].key != key {
          var i :| 0 <= i < |tail| && tail[i].key == rest[j].key;
          assert tail[i] == plan[i + 1];
        }
      }
      var r := [plan[0]] + rest;
      assert Put(plan, key, meal) == r;
      forall i, j | 0 <= i < j < |r| ensures r[i].key != r[j].key {
        assert r[j] == rest[j - 1];
        if i > 0 {
          assert r[i] == rest[i - 1];
        }
      }
    } else if plan != [] {
      assert forall j :: 0 < j < |plan| ==> plan[j].key != key;
      LookupAbsent(plan[1..], key);
    }
  }

  lemma {:induction false} LookupAbsent(plan: seq<DayEntry>, key: string)
    requires forall j :: 0 <= j < |plan| ==> plan[j].key != key
    ensures Lookup(plan, key).None?
  {
    if plan != [] {
      LookupAbsent(plan[1..], key);
    }
  }

  /** The keys of `plan[key] = meal` are the old keys plus `key`. */
  lemma {:induction false} KeysOfPut(plan: seq<DayEntry>, key: string, meal: string)
    ensures forall j :: 0 <= j < |Put(plan, key, meal)| ==>
              Put(plan, key, meal)[j].key == key || exists i :: 0 <= i < |plan| && plan[i].key == Put(plan, key, meal)[j].key
  {
    if plan != [] && plan[0].key != key {
      KeysOfPut(plan[1..], key, meal);
      var r := Put(plan, key, meal);
      forall j | 0 < j < |r| && r[j].key != key
        ensures exists i :: 0 <= i < |plan| && plan[i].key == r[j].key
      {
        var i :| 0 <= i < |plan[1..]| && plan[1..][i].key == r[j].key;
        assert plan[i + 1].key == r[j].key;
      }
    }
  }

  // --------------------------------------------------------- the line loop

  /** The loop's variables: `meal_plan`, `shopping_list`, `in_shopping_list_section`. */
  datatype ParseState = ParseState(mealPlan: seq<DayEntry>, shoppingList: seq<string>, inShoppingList: bool)

  const Start: ParseState := ParseState([], [], false)

  /** One iteration of the loop on one raw line. */
  function Step(s: ParseState, rawLine: string): ParseState
  {
    var line := Strip(rawLine);
    if line == [] then s
    else if HasShoppingListHeader(line) then s.(inShoppingList := true)
    else if s.inShoppingList then
      if line[0] == '-' || line[0] == '*' then s.(shoppingList := s.shoppingList + [Strip(line[1..])]) else s
    else
      match MatchDay(line)
      case None => s
      case Some(m) => s.(mealPlan := Put(s.mealPlan, "Day " + m.day, m.meal))
  }

  /** The loop run over `lines` from state `s`. */
  function Run(s: ParseState, lines: seq<string>): ParseState
  {
    if lines == [] then s else Step(Run(s, lines[..|lines| - 1]), lines[|lines| - 1])
  }

  /** The lines the loop reads: `text_response.strip().split('\n')`. */
  function ResponseLines(textResponse: string): seq<string>
  {
    SplitLines(Strip(textResponse))
  }

  // ----------------------------------------------- reference definitions

  /** A line that switches to the shopping list: it contains the header once stripped. */
  predicate IsHeaderLine(rawLine: string)
  {
    HasShoppingListHeader(Strip(rawLine))
  }

  /** Index of the first header line at or after `k`, or `|lines|`. */
  function FirstHeader(lines: seq<string>, k: nat): (h: nat)
    requires k <= |lines|
    ensures k <= h <= |lines|
    ensures forall i :: k <= i < h ==> !IsHeaderLine(lines[i])
    ensures h < |lines| ==> IsHeaderLine(lines[h])
    decreases |lines| - k
  {
    if k == |lines| || IsHeaderLine(lines[k]) then k else FirstHeader(lines, k + 1)
  }

  /** A shopping-list item line: once stripped it is not empty, is not a header,
      and starts with `-` or `*`. */
  predicate IsBulletLine(rawLine: string)
  {
    var line := Strip(rawLine);
    line != [] && !HasShoppingListHeader(line) && (line[0] == '-' || line[0] == '*')
  }

  /** The item a bullet line contributes: the text after its first character, stripped. */
  function BulletText(rawLine: string): string
    requires IsBulletLine(rawLine)
  {
    Strip(Strip(rawLine)[1..])
  }

  /** The items of the bullet lines among `lines`, in input order. */
  function Bullets(lines: seq<string>): (r: seq<string>)
    ensures |r| <= |lines|
  {
    if lines == [] then []
    else (if IsBulletLine(lines[0]) then [BulletText(lines[0])] else []) + Bullets(lines[1..])
  }

  /** What a line contributes as a day: the day pattern's captures on the stripped line. */
  function DayLine(rawLine: string): Option<DayMatch>
  {
    MatchDay(Strip(rawLine))
  }

  /** The meal plan built from the day lines among `lines`, each `Day N` entry
      set in turn. */
  function DayEntries(lines: seq<string>): seq<DayEntry>
  {
    if lines == [] then []
    else
      var plan := DayEntries(lines[..|lines| - 1]);
      match DayLine(lines[|lines| - 1])
      case None => plan
      case Some(m) => Put(plan, "Day " + m.day, m.meal)
  }

  // --------------------------------------------------------------- lemmas

  lemma {:induction false} RunAppend(s: ParseState, a: seq<string>, b: seq<string>)
    ensures Run(s, a + b) == Run(Run(s, a), b)
  {
    if b != [] {
      RunAppend(s, a, b[..|b| - 1]);
      assert (a + b)[..|a + b| - 1] == a + b[..|b| - 1];
      assert (a + b)[|a + b| - 1] == b[|b| - 1];
    } else {
      assert a + b == a;
    }
  }

  lemma RunCons(s: ParseState, first: string, rest: seq<string>)
    ensures Run(s, [first] + rest) == Run(Step(s, first), rest)
  {
    RunAppend(s, [first], rest);
    assert [first][..0] == [];
  }

  /** A line that is blank once stripped leaves the state as it was. */
  lemma StepBlank(s: ParseState, rawLine: string)
    requires Strip(rawLine) == []
    ensures Step(s, rawLine) == s
  {
  }

  /** A header line switches to shopping-list mode and changes nothing else. */
  lemma StepHeader(s: ParseState, rawLine: string)
    requires IsHeaderLine(rawLine)
    ensures Step(s, rawLine) == s.(inShoppingList := true)
  {
  }

  lemma {:induction false} BulletsAppend(a: seq<string>, b: seq<string>)
    ensures Bullets(a + b) == Bullets(a) + Bullets(b)
  {
    if a != [] {
      BulletsAppend(a[1..], b);
      assert (a + b)[1..] == a[1..] + b;
      assert (a + b)[0] == a[0];
    } else {
      assert a + b == b;
    }
  }

  /** Before any header, the loop only builds the meal plan. */
  lemma {:induction false} RunBeforeHeader(lines: seq<string>)
    requires forall i :: 0 <= i < |lines| ==> !IsHeaderLine(lines[i])
    ensures Run(Start, lines) == ParseState(DayEntries(lines), [], false)
  {
    if lines != [] {
      RunBeforeHeader(lines[..|lines| - 1]);
      assert MatchDay([]).None?;
    }
  }

  /** Once in shopping-list mode, the loop stays there and only appends the
      items of bullet lines. */
  lemma {:induction false} RunInShoppingList(s: ParseState, lines: seq<string>)
    requires s.inShoppingList
    ensures Run(s, lines) == s.(shoppingList := s.shoppingList + Bullets(lines))
  {
    if lines != [] {
      var init, last := lines[..|lines| - 1], lines[|lines| - 1];
      RunInShoppingList(s, init);
      BulletsAppend(init, [last]);
      assert init + [last] == lines;
    }
  }

  /** The parse splits at the first header line: the meal plan comes from the day
      lines before it, the shopping list from the bullet lines after it, and
      shopping-list mode is on exactly when some line is a header. Day lines
      after the header and bullet lines before it contribute nothing. */
  lemma ParseSplitsAtFirstHeader(lines: seq<string>, h: nat)
    requires h == FirstHeader(lines, 0)
    ensures Run(Start, lines)
      == ParseState(DayEntries(lines[..h]), if h < |lines| then Bullets(lines[h + 1..]) else [], h < |lines|)
  {
    if h < |lines| {
      HeaderLineAt(lines, h);
    } else {
      NoHeaderLine(lines, h);
    }
  }

  lemma HeaderLineAt(lines: seq<string>, h: nat)
    requires h < |lines| && IsHeaderLine(lines[h])
    requires forall i :: 0 <= i < h ==> !IsHeaderLine(lines[i])
    ensures Run(Start, lines) == ParseState(DayEntries(lines[..h]), Bullets(lines[h + 1..]), true)
  {
    var before, after := lines[..h], lines[h + 1..];
    assert forall i :: 0 <= i < |before| ==> !IsHeaderLine(before[i]);
    SplitAround(lines, h);
    SplitAtHeader(before, lines[h], after);
  }

  lemma SplitAround<T>(xs: seq<T>, h: nat)
    requires h < |xs|
    ensures xs == xs[..h] + ([xs[h]] + xs[h + 1..])
  {
  }

  lemma NoHeaderLine(lines: seq<string>, h: nat)
    requires h == |lines|
    requires forall i :: 0 <= i < h ==> !IsHeaderLine(lines[i])
    ensures Run(Start, lines) == ParseState(DayEntries(lines[..h]), [], false)
  {
    assert lines[..h] == lines;
    RunBeforeHeader(lines);
  }

  lemma SplitAtHeader(before: seq<string>, header: string, after: seq<string>)
    requires forall i :: 0 <= i < |before| ==> !IsHeaderLine(before[i])
    requires IsHeaderLine(header)
    ensures Run(Start, before + ([header] + after)) == ParseState(DayEntries(before), Bullets(after), true)
  {
    RunBeforeHeader(before);
    RunAppend(Start, before, [header] + after);
    RunCons(Run(Start, before), header, after);
    StepHeader(Run(Start, before), header);
    RunInShoppingList(ParseState(DayEntries(before), [], true), after);
  }

  /** Shopping-list mode is on at the end exactly when some line is a header. */
  lemma ShoppingModeIffHeader(lines: seq<string>)
    ensures Run(Start, lines).inShoppingList <==> exists i :: 0 <= i < |lines| && IsHeaderLine(lines[i])
  {
    var h := FirstHeader(lines, 0);
    ParseSplitsAtFirstHeader(lines, h);
    if h == |lines| {
      assert forall i :: 0 <= i < |lines| ==> !IsHeaderLine(lines[i]);
    }
  }

  /** Lines that are empty once stripped change nothing: dropping them all gives the same parse. */
  lemma {:induction false} BlankLinesIgnored(s: ParseState, lines: seq<string>)
    ensures Run(s, NonBlank(lines)) == Run(s, lines)
    decreases |lines|
  {
    if lines != [] {
      var first, rest := lines[0], lines[1..];
      assert [first] + rest == lines;
      RunCons(s, first, rest);
      if Strip(first) == [] {
        assert NonBlank(lines) == NonBlank(rest);
        StepBlank(s, first);
        BlankLinesIgnored(s, rest);
      } else {
        assert NonBlank(lines) == [first] + NonBlank(rest);
        RunCons(s, first, NonBlank(rest));
        BlankLinesIgnored(Step(s, first), rest);
      }
    }
  }

  /** `lines` without the ones that are empty once stripped. */
  function NonBlank(lines: seq<string>): seq<string>
  {
    if lines == [] then []
    else (if Strip(lines[0]) == [] then [] else [lines[0]]) + NonBlank(lines[1..])
  }

  /** The meal plan has one entry per distinct day key. */
  lemma {:induction false} DayEntriesUnique(lines: seq<string>)
    ensures UniqueKeys(DayEntries(lines))
  {
    if lines != [] {
      DayEntriesUnique(lines[..|lines| - 1]);
      match DayLine(lines[|lines| - 1])
      case None =>
      case Some(m) => PutSpec(DayEntries(lines[..|lines| - 1]), "Day " + m.day, m.meal, "");
    }
  }

  /** A later `Day N:` line overwrites an earlier one with the same digit string:
      the entry for `"Day " + d` holds the meal of the last day line with digits `d`. */
  lemma {:induction false} LastDayLineWins(lines: seq<string>, k: nat, d: string, meal: string)
    requires k < |lines| && DayLine(lines[k]) == Some(DayMatch(d, meal))
    requires forall j :: k < j < |lines| ==> DayLine(lines[j]).None? || DayLine(lines[j]).value.day != d
    ensures Lookup(DayEntries(lines), "Day " + d) == Some(meal)
  {
    var init := lines[..|lines| - 1];
    DayEntriesUnique(init);
    if k == |lines| - 1 {
      PutSpec(DayEntries(init), "Day " + d, meal, "Day " + d);
    } else {
      LastDayLineWins(init, k, d, meal);
      match DayLine(lines[|lines| - 1])
      case None =>
      case Some(m) =>
        assert ("Day " + m.day)[4..] == m.day && ("Day " + d)[4..] == d;
        PutSpec(DayEntries(init), "Day " + m.day, m.meal, "Day " + d);
    }
  }

  // --------------------------------------------------------------- method

  /** `parse_meal_plan_response`. The meal plan holds the day lines before the
      first header and the shopping list the bullet items after it, in order. */
  method ParseMealPlanResponse(textResponse: string) returns (mealPlan: seq<DayEntry>, shoppingList: seq<string>)
    ensures var lines := ResponseLines(textResponse);
      var h := FirstHeader(lines, 0);
      && mealPlan == DayEntries(lines[..h])
      && shoppingList == (if h < |lines| then Bullets(lines[h + 1..]) else [])
      && UniqueKeys(mealPlan)
      && |shoppingList| <= |lines|
  {
    mealPlan := [];
    shoppingList := [];
    var inShoppingListSection := false;
    var lines := SplitLines(Strip(textResponse));
    for i := 0 to |lines|
      invariant Run(Start, lines[..i]) == ParseState(mealPlan, shoppingList, inShoppingListSection)
    {
      assert lines[..i + 1][..i] == lines[..i];
      var line := Strip(lines[i]);
      if line == [] {
        continue;
      }
      if HasShoppingListHeader(line) {
        inShoppingListSection := true;
        continue;
      }
      if inShoppingListSection {
        if line[0] == '-' || line[0] == '*' {
          shoppingList := shoppingList + [Strip(line[1..])];
        }
      } else {
        var dayMatch := MatchDay(line);
        if dayMatch.Some? {
          mealPlan := Put(mealPlan, "Day " + dayMatch.value.day, dayMatch.value.meal);
        }
      }
    }
    assert lines[..|lines|] == lines;
    var h := FirstHeader(lines, 0);
    ParseSplitsAtFirstHeader(lines, h);
    DayEntriesUnique(lines[..h]);
  }
}
