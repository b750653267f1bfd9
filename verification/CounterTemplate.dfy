/** `formatCounterChannelName`: three chained regular-expression replacements and a cut at the
    longest channel name Discord accepts. */
module CounterTemplate {
  import opened BraceTemplates
  import opened Options

  const COUNTER_TEMPLATE_MAX_LENGTH := 100
  const SAMPLE_COUNT := "1,234"

  // ----- The count string -----

  function Digits(n: nat): (s: string)
    ensures |s| > 0 && forall i :: 0 <= i < |s| ==> '0' <= s[i] <= '9'
  {
    if n < 10 then ['0' + n as char] else Digits(n / 10) + ['0' + (n % 10) as char]
  }

  /** A comma before every third digit counted from the end. */
  function Grouped(digits: string): (s: string)
    requires forall i :: 0 <= i < |digits| ==> '0' <= digits[i] <= '9'
    ensures forall i :: 0 <= i < |s| ==> '0' <= s[i] <= '9' || s[i] == ','
    decreases |digits|
  {
    if |digits| <= 3 then digits
    else Grouped(digits[..|digits| - 3]) + "," + digits[|digits| - 3..]
  }

  /** `toLocaleString('en-US', { maximumFractionDigits: 0 })` of a whole number. */
  function FormatNumber(n: int): (s: string)
    ensures NoBrace(s)
  {
    if n < 0 then "-" + Grouped(Digits(-n)) else Grouped(Digits(n))
  }

  /** The number that digits with commas in between stand for. */
  function ReadDigits(s: string): int {
    if s == "" then 0
    else if s[|s| - 1] == ',' then ReadDigits(s[..|s| - 1])
    else 10 * ReadDigits(s[..|s| - 1]) + (s[|s| - 1] as int - '0' as int)
  }

  lemma {:induction false} ReadDigitsOf(n: nat)
    ensures ReadDigits(Digits(n)) == n
  {
    if n < 10 {
      assert Digits(n)[..0] == "";
    } else {
      ReadDigitsOf(n / 10);
      assert Digits(n)[..|Digits(n)| - 1] == Digits(n / 10);
    }
  }

  lemma ReadThree(a: string, b: string)
    requires |b| == 3 && forall i :: 0 <= i < 3 ==> '0' <= b[i] <= '9'
    ensures ReadDigits(a + b) == 1000 * ReadDigits(a)
              + 100 * (b[0] as int - '0' as int) + 10 * (b[1] as int - '0' as int) + (b[2] as int - '0' as int)
  {
    var s1, s2, s3 := a + [b[0]], a + [b[0], b[1]], a + b;
    assert s3[..|a| + 2] == s2 && s2[..|a| + 1] == s1 && s1[..|a|] == a;
    assert ReadDigits(s1) == 10 * ReadDigits(a) + (b[0] as int - '0' as int);
    assert ReadDigits(s2) == 10 * ReadDigits(s1) + (b[1] as int - '0' as int);
  }

  lemma {:induction false} ReadGrouped(digits: string)
    requires forall i :: 0 <= i < |digits| ==> '0' <= digits[i] <= '9'
    ensures ReadDigits(Grouped(digits)) == ReadDigits(digits)
    decreases |digits|
  {
    if |digits| > 3 {
      var front, last := digits[..|digits| - 3], digits[|digits| - 3..];
      ReadGrouped(front);
      ReadThree(Grouped(front) + ",", last);
      ReadThree(front, last);
      assert front + last == digits;
      assert (Grouped(front) + ",")[..|Grouped(front)|] == Grouped(front);
    }
  }

  /** Commas stand before every third digit from the end and nowhere else. */
  lemma {:induction false} CommasEveryThree(digits: string, i: nat)
    requires forall k :: 0 <= k < |digits| ==> '0' <= digits[k] <= '9'
    requires i < |Grouped(digits)|
    ensures var s := Grouped(digits); s[|s| - 1 - i] == ',' <==> i % 4 == 3
    ensures digits != "" ==> Grouped(digits)[0] != ','
    decreases |digits|
  {
    if |digits| > 3 {
      var front := digits[..|digits| - 3];
      CommasEveryThree(front, if i >= 4 then i - 4 else 0);
    }
  }

  /** The count string reads as the count, and is grouped in threes. */
  lemma FormatNumberReadsBack(n: int)
    ensures var s := FormatNumber(n);
            if n < 0 then s[0] == '-' && ReadDigits(s[1..]) == -n else ReadDigits(s) == n
  {
    var digits := Digits(if n < 0 then -n else n);
    ReadDigitsOf(if n < 0 then -n else n);
    ReadGrouped(digits);
    if n < 0 {
      assert ("-" + Grouped(digits))[1..] == Grouped(digits);
    }
  }

  // ----- The regular expressions -----

  predicate IsWordChar(c: char) {
    'a' <= c <= 'z' || 'A' <= c <= 'Z' || '0' <= c <= '9' || c == '_'
  }

  function LowerChar(c: char): char {
    if 'A' <= c <= 'Z' then c - 'A' + 'a' else c
  }

  function Lower(s: string): (r: string)
    ensures |r| == |s|
  {
    seq(|s|, i requires 0 <= i < |s| => LowerChar(s[i]))
  }

  /** What a regular expression matches at the start of a text: the length of the match, 0 for none. */
  type Matcher = string -> nat

  /** A global replace: scan from the left, replace each match, go on after it. */
  function ReplaceAll(t: string, m: Matcher, replacement: string): string
    decreases |t|
  {
    if t == "" then ""
    else if 0 < m(t) <= |t| then replacement + ReplaceAll(t[m(t)..], m, replacement)
    else [t[0]] + ReplaceAll(t[1..], m, replacement)
  }

  /** A literal word in braces, with the `i` flag. */
  function LiteralMatcher(word: string): Matcher {
    t => if |t| >= |word| + 2 && t[0] == '{' && Lower(t[1..|word| + 1]) == word && t[|word| + 1] == '}'
      then |word| + 2 else 0
  }

  /** Length of the longest run of word characters at the start of t. */
  function WordRun(t: string): (n: nat)
    ensures n <= |t|
    ensures forall i :: 0 <= i < n ==> IsWordChar(t[i])
    ensures n < |t| ==> !IsWordChar(t[n])
  {
    if t == "" || !IsWordChar(t[0]) then 0 else 1 + WordRun(t[1..])
  }

  /** One or more word characters in braces. */
  function WordMatcher(): Matcher {
    t =>
      if t == "" || t[0] != '{' then 0
      else
        var n := WordRun(t[1..]);
        if n > 0 && n + 1 < |t| && t[n + 1] == '}' then n + 2 else 0
  }

  // ----- The matches are groups -----

  predicate IsWord(name: string) {
    name != "" && forall i :: 0 <= i < |name| ==> IsWordChar(name[i])
  }

  predicate IsLiteral(name: string, word: string) {
    Lower(name) == word
  }

  /** The names that a matcher picks out among the groups. */
  ghost predicate Matches(m: Matcher, names: string -> bool) {
    forall t :: m(t) == if StartsGroup(t, names) then |GroupAt(t).value| + 2 else 0
  }

  function Every(names: string -> bool, replacement: string): Substitution {
    name => if names(name) then Some(replacement) else None
  }

  lemma {:induction false} ReplaceAllIsApply(t: string, m: Matcher, names: string -> bool, replacement: string)
    requires Matches(m, names)
    ensures ReplaceAll(t, m, replacement) == Apply(t, Every(names, replacement))
    decreases |t|
  {
    if t != "" {
      if StartsGroup(t, names) {
        ReplaceAllIsApply(t[m(t)..], m, names, replacement);
      } else {
        ReplaceAllIsApply(t[1..], m, names, replacement);
      }
    }
  }

  /** A group is what its braces enclose, if that has no brace itself. */
  lemma EnclosedIsGroup(t: string, n: nat)
    requires n + 1 < |t| && t[0] == '{' && t[n + 1] == '}' && NoBrace(t[1..n + 1])
    ensures GroupAt(t) == Some(t[1..n + 1])
  {
    GroupAtGroup(t[1..n + 1], t[n + 2..]);
    assert t == Group(t[1..n + 1]) + t[n + 2..];
  }

  lemma LiteralMatches(word: string)
    requires forall i :: 0 <= i < |word| ==> 'a' <= word[i] <= 'z'
    ensures Matches(LiteralMatcher(word), name => IsLiteral(name, word))
  {
    var names := name => IsLiteral(name, word);
    forall t
      ensures LiteralMatcher(word)(t) == if StartsGroup(t, names) then |GroupAt(t).value| + 2 else 0
    {
      if LiteralMatcher(word)(t) != 0 {
        var name := t[1..|word| + 1];
        forall i | 0 <= i < |name|
          ensures !IsBrace(name[i])
        {
          assert LowerChar(name[i]) == Lower(name)[i] == word[i];
        }
        EnclosedIsGroup(t, |word|);
      }
      if StartsGroup(t, names) {
        var name := GroupAt(t).value;
        assert t[1..|word| + 1] == name;
      }
    }
  }

  lemma WordMatches()
    ensures Matches(WordMatcher(), IsWord)
  {
    forall t: string
      ensures WordMatcher()(t) == if StartsGroup(t, IsWord) then |GroupAt(t).value| + 2 else 0
    {
      if WordMatcher()(t) != 0 {
        var n := WordRun(t[1..]);
        var name := t[1..n + 1];
        assert forall i :: 0 <= i < n ==> name[i] == t[1..][i];
        EnclosedIsGroup(t, n);
      }
      if StartsGroup(t, IsWord) {
        WordRunOfGroup(t);
      }
    }
  }

  lemma WordRunOfGroup(t: string)
    requires StartsGroup(t, IsWord)
    ensures WordRun(t[1..]) == |GroupAt(t).value|
  {
    var name := GroupAt(t).value;
    var n := WordRun(t[1..]);
    var u := t[1..];
    assert forall i :: 0 <= i < |name| ==> u[i] == name[i];
    assert u[|name|] == '}';
  }

  // ----- The utility -----

  /** The replacements before the cut. */
  function Replaced(template: string, countStr: string, dateStr: string): string {
    ReplaceAll(
      ReplaceAll(
        ReplaceAll(template, LiteralMatcher("count"), countStr),
        LiteralMatcher("date"), dateStr),
      WordMatcher(), countStr)
  }

  function Cut(s: string): string {
    if |s| > COUNTER_TEMPLATE_MAX_LENGTH then s[..COUNTER_TEMPLATE_MAX_LENGTH] else s
  }

  /** The date string is what Intl makes of the date, time zone and style; it is a parameter here. The
      name is the longest beginning of the replaced text that Discord accepts. */
  function FormatCounterChannelName(template: string, count: Option<int>, dateStr: string): (name: string)
    ensures |name| <= COUNTER_TEMPLATE_MAX_LENGTH
    ensures var replaced := Replaced(template, CountString(count), dateStr);
            name <= replaced && (|name| < COUNTER_TEMPLATE_MAX_LENGTH ==> name == replaced)
  {
    Cut(Replaced(template, CountString(count), dateStr))
  }

  function CountString(count: Option<int>): (s: string)
    ensures NoBrace(s)
  {
    if count.Some? then FormatNumber(count.value) else SAMPLE_COUNT
  }

  /** What the three replacements mean: a date group becomes the date, any other word group the count. */
  function Meaning(countStr: string, dateStr: string): Substitution {
    name =>
      if Lower(name) == "date" then Some(dateStr)
      else if IsWord(name) then Some(countStr)
      else None
  }

  lemma CountIsWord(name: string)
    requires Lower(name) == "count" || Lower(name) == "date"
    ensures IsWord(name)
  {
    forall i | 0 <= i < |name|
      ensures IsWordChar(name[i])
    {
      assert Lower(name)[i] == LowerChar(name[i]);
      assert 'a' <= Lower(name)[i] <= 'z';
    }
  }

  /** The chained replacements are one pass in which each `{date}` group, in any case, becomes the
      date and every other word group the count. */
  lemma ReplacedIsOnePass(template: string, countStr: string, dateStr: string)
    requires NonNested(template) && NoBrace(countStr) && NoBrace(dateStr)
    ensures Replaced(template, countStr, dateStr) == Apply(template, Meaning(countStr, dateStr))
  {
    var isCount := name => IsLiteral(name, "count");
    var isDate := name => IsLiteral(name, "date");
    var f, g, h := Every(isCount, countStr), Every(isDate, dateStr), Every(IsWord, countStr);
    LiteralMatches("count");
    LiteralMatches("date");
    WordMatches();
    var t1 := ReplaceAll(template, LiteralMatcher("count"), countStr);
    ReplaceAllIsApply(template, LiteralMatcher("count"), isCount, countStr);
    var t2 := ReplaceAll(t1, LiteralMatcher("date"), dateStr);
    ReplaceAllIsApply(t1, LiteralMatcher("date"), isDate, dateStr);
    ReplaceAllIsApply(t2, WordMatcher(), IsWord, countStr);
    TwoPassesAreOne(template, f, g);
    TwoPassesAreOne(template, OrElse(f, g), h);
    forall name
      ensures OrElse(OrElse(f, g), h)(name) == Meaning(countStr, dateStr)(name)
    {
      if Lower(name) == "count" || Lower(name) == "date" {
        CountIsWord(name);
        assert Lower(name) == "count" ==> |Lower(name)| == 5;
      }
    }
    SameSubstitution(template, OrElse(OrElse(f, g), h), Meaning(countStr, dateStr));
  }

  /** The channel name is at most 100 characters of the one-pass text and shows no placeholder, cut or not. */
  lemma NoPlaceholderShows(template: string, count: Option<int>, dateStr: string)
    requires NonNested(template) && NoBrace(dateStr)
    ensures !HasGroup(FormatCounterChannelName(template, count, dateStr), IsWord)
    ensures FormatCounterChannelName(template, count, dateStr)
            == Cut(Apply(template, Meaning(CountString(count), dateStr)))
  {
    var countStr := CountString(count);
    ReplacedIsOnePass(template, countStr, dateStr);
    NoGroupLeft(template, Meaning(countStr, dateStr), IsWord);
    var full := Replaced(template, countStr, dateStr);
    if |full| > COUNTER_TEMPLATE_MAX_LENGTH && HasGroup(Cut(full), IsWord) {
      CutCreatesNoGroup(full, COUNTER_TEMPLATE_MAX_LENGTH, IsWord);
    }
  }

  // ----- What each group shows -----

  /** "date" in any case. */
  predicate IsDate(name: string) {
    |name| == 4 && name[0] in "dD" && name[1] in "aA" && name[2] in "tT" && name[3] in "eE"
  }

  predicate IsIdentifier(name: string) {
    name != "" && forall c <- name :: 'a' <= c <= 'z' || 'A' <= c <= 'Z' || '0' <= c <= '9' || c == '_'
  }

  /** The text is the number, with its sign, in digits and commas. */
  predicate Reads(text: string, n: int) {
    var digits := if n < 0 && text != "" then text[1..] else text;
    && (n < 0 ==> text != "" && text[0] == '-')
    && (forall c <- digits :: '0' <= c <= '9' || c == ',')
    && digits != "" && ReadDigits(digits) == if n < 0 then -n else n
  }

  /** The text that a group shows: the date, the count, "1,234" without a count, or the group itself. */
  predicate Shows(text: string, name: string, count: Option<int>, dateStr: string) {
    if IsDate(name) then text == dateStr
    else if !IsIdentifier(name) then text == "{" + name + "}"
    else if count.None? then text == "1,234"
    else Reads(text, count.value)
  }

  lemma CountReads(n: int)
    ensures Reads(CountString(Some(n)), n)
  {
    FormatNumberReadsBack(n);
    var text := CountString(Some(n));
    var digits := if n < 0 then text[1..] else text;
    assert digits == Grouped(Digits(if n < 0 then -n else n));
  }

  lemma DateIsLower(name: string)
    ensures IsDate(name) <==> Lower(name) == "date"
  {
    if |name| == 4 {
      assert Lower(name) == [LowerChar(name[0]), LowerChar(name[1]), LowerChar(name[2]), LowerChar(name[3])];
    }
  }

  lemma IdentifierIsWord(name: string)
    ensures IsIdentifier(name) <==> IsWord(name)
  {
    if IsIdentifier(name) {
      assert forall i :: 0 <= i < |name| ==> name[i] in name;
    }
  }

  lemma MeaningShows(name: string, count: Option<int>, dateStr: string)
    ensures var f := Meaning(CountString(count), dateStr);
            Shows(if f(name).Some? then f(name).value else Group(name), name, count, dateStr)
  {
    hide Lower, IsDate, IsWord, IsIdentifier, Reads;
    DateIsLower(name);
    IdentifierIsWord(name);
    if count.Some? {
      hide FormatNumber;
      CountReads(count.value);
    }
  }

  /** A group in a text without other braces: the name shows the text around it and what the group
      stands for, up to 100 characters. */
  lemma GroupShows(x: string, name: string, y: string, count: Option<int>, dateStr: string)
    requires NoBrace(x) && NoBrace(name) && NoBrace(y) && NoBrace(dateStr)
    ensures exists text :: Shows(text, name, count, dateStr) &&
              var full := x + (text + y);
              FormatCounterChannelName(x + ("{" + name + "}" + y), count, dateStr)
              == if |full| > 100 then full[..100] else full
  {
    hide Shows, Replaced, Meaning, CountString, Apply;
    var f := Meaning(CountString(count), dateStr);
    var text := if f(name).Some? then f(name).value else Group(name);
    MeaningShows(name, count, dateStr);
    OneGroupIsNotNested(x, name, y);
    ReplacedIsOnePass(x + (Group(name) + y), CountString(count), dateStr);
    ApplyAround(x, name, y, f);
    assert Shows(text, name, count, dateStr);
  }

  /** With nested braces a placeholder can be left: the inner group's text completes the outer one,
      which no later pass looks at. With "a" and "b" the template is `{{a}b}`. */
  lemma NestedTemplateKeepsPlaceholder(inner: string, tail: string, countStr: string, dateStr: string)
    requires IsWord(inner) && Lower(inner) != "count" && Lower(inner) != "date" && IsWord(countStr + tail)
    ensures HasGroup(Replaced("{" + (Group(inner) + (tail + "}")), countStr, dateStr), IsWord)
  {
    assert forall i :: 0 <= i < |tail| ==> tail[i] == (countStr + tail)[|countStr| + i];
    ReplacedNested(inner, tail + "}", countStr, dateStr);
    assert "{" + (countStr + (tail + "}")) == Group(countStr + tail);
    WholeGroupIsGroup(countStr + tail, IsWord);
  }

  lemma ReplacedNested(inner: string, rest: string, countStr: string, dateStr: string)
    requires IsWord(inner) && Lower(inner) != "count" && Lower(inner) != "date"
    requires forall i :: 0 <= i < |rest| ==> rest[i] != '{'
    ensures Replaced("{" + (Group(inner) + rest), countStr, dateStr) == "{" + (countStr + rest)
  {
    var t := "{" + (Group(inner) + rest);
    LiteralKeepsNested(inner, rest, "count", countStr);
    LiteralKeepsNested(inner, rest, "date", dateStr);
    WordMatches();
    ReplaceAllIsApply(t, WordMatcher(), IsWord, countStr);
    FillInner(inner, rest, Every(IsWord, countStr));
  }

  lemma LiteralKeepsNested(inner: string, rest: string, word: string, replacement: string)
    requires NoBrace(inner) && Lower(inner) != word
    requires forall i :: 0 <= i < |word| ==> 'a' <= word[i] <= 'z'
    requires forall i :: 0 <= i < |rest| ==> rest[i] != '{'
    ensures var t := "{" + (Group(inner) + rest); ReplaceAll(t, LiteralMatcher(word), replacement) == t
  {
    var t := "{" + (Group(inner) + rest);
    var names := name => IsLiteral(name, word);
    LiteralMatches(word);
    ReplaceAllIsApply(t, LiteralMatcher(word), names, replacement);
    FillInner(inner, rest, Every(names, replacement));
  }

  lemma WholeGroupIsGroup(name: string, names: string -> bool)
    requires NoBrace(name) && names(name)
    ensures HasGroup(Group(name), names)
  {
    GroupAtGroup(name, "");
    assert Group(name) + "" == Group(name);
    assert Group(name)[0..] == Group(name);
    assert GroupFrom(Group(name), 0, names);
  }
}
