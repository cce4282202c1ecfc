/** The seven checks of the question-analysis script, over the parsed basic and
    advanced question lists. Text comparison goes through `norm`, the lower-casing and
    trimming the script applies, kept abstract. */
module QuestionAnalysis {
  import opened Wrappers
  import opened Questions

  /** The Laws of the Game are numbered 1 to 17. */
  const LastRule: int := 17

  /** The least number of basic questions a rule should have. */
  const FewQuestions: int := 3

  /** The fewest answer options a question should have. */
  const MinOptions: int := 4

  /** The names the report uses for the seventeen rules, rule 1 first. */
  const RuleNameList: seq<string> := [
    "Das Spielfeld", "Der Ball", "Die Spieler",
    "Die Ausrüstung der Spieler", "Der Schiedsrichter",
    "Die weiteren Spieloffiziellen", "Die Dauer des Spiels",
    "Beginn und Fortsetzung des Spiels", "Ball im Spiel und außer Spiel",
    "Wie ein Tor erzielt wird", "Abseits",
    "Fouls und unsportliches Betragen", "Freistöße", "Strafstoß",
    "Einwurf", "Abstoß", "Eckstoß"]

  /** `ruleNames[r]`: the report's name for rule `r`; every rule 1..17 has one. */
  function RuleName(r: int): (name: string)
    requires 1 <= r <= LastRule
    ensures name != ""
  {
    RuleNameList[r - 1]
  }

  /** The question is about rule `r`. */
  function OnRule(r: int): Question -> bool {
    (q: Question) => q.rule == r
  }

  /** `qs.filter(q => q.rule === r).length`. */
  function CountWithRule(qs: seq<Question>, r: int): nat {
    CountIf(qs, OnRule(r))
  }

  // ---- 1. Rule coverage ---------------------------------------------------------

  datatype Coverage = Coverage(basic: nat, advanced: nat)

  /** Block 1: for each rule 1..17, how many basic and how many advanced questions are about it. */
  method RuleCoverage(basic: seq<Question>, advanced: seq<Question>) returns (coverage: map<int, Coverage>)
    ensures forall r :: r in coverage <==> 1 <= r <= LastRule
    ensures forall r :: 1 <= r <= LastRule ==>
      coverage[r].basic == |Positions(basic, OnRule(r))| && coverage[r].advanced == |Positions(advanced, OnRule(r))|
  {
    coverage := map[];
    for i := 1 to LastRule + 1
      invariant forall r :: r in coverage <==> 1 <= r < i
      invariant forall r :: 1 <= r < i ==>
        coverage[r].basic == |Positions(basic, OnRule(r))| && coverage[r].advanced == |Positions(advanced, OnRule(r))|
    {
      CountIfIsCardinality(basic, OnRule(i));
      CountIfIsCardinality(advanced, OnRule(i));
      coverage := coverage[i := Coverage(CountWithRule(basic, i), CountWithRule(advanced, i))];
    }
  }

  // ---- 2. Duplicate questions ---------------------------------------------------

  /** A question whose normalised text an earlier one already had: the first one's id, its id, its text. */
  datatype Duplicate = Duplicate(id1: int, id2: int, question: string)

  /** The normalised texts of the questions. */
  function Texts(qs: seq<Question>, norm: string -> string): set<string> {
    set k | 0 <= k < |qs| :: norm(qs[k].question)
  }

  /** The first question whose normalised text is `text`. */
  function FirstWithText(qs: seq<Question>, text: string, norm: string -> string): Option<Question> {
    FirstWhere(qs, (q: Question) => norm(q.question) == text)
  }

  lemma FirstWithTextFound(qs: seq<Question>, text: string, norm: string -> string)
    ensures FirstWithText(qs, text, norm).Some? <==> text in Texts(qs, norm)
    ensures FirstWithText(qs, text, norm).Some? ==>
      exists i :: 0 <= i < |qs| && qs[i] == FirstWithText(qs, text, norm).value && norm(qs[i].question) == text
        && forall j :: 0 <= j < i ==> norm(qs[j].question) != text
  {
  }

  /** The duplicates in list order: each question whose normalised text occurred
      earlier gives one record naming the first question with that text. */
  function DuplicatesIn(qs: seq<Question>, norm: string -> string): seq<Duplicate> {
    if qs == [] then []
    else
      var init, q := qs[..|qs| - 1], qs[|qs| - 1];
      DuplicatesIn(init, norm) +
        match FirstWithText(init, norm(q.question), norm)
        case Some(first) => [Duplicate(first.id, q.id, q.question)]
        case None => []
  }

  /** One more question adds its normalised text to the set of texts. */
  lemma TextsStep(qs: seq<Question>, n: nat, norm: string -> string)
    requires n < |qs|
    ensures Texts(qs[..n + 1], norm) == Texts(qs[..n], norm) + {norm(qs[n].question)}
  {
    var next, init := qs[..n + 1], qs[..n];
    forall t | t in Texts(next, norm) ensures t in Texts(init, norm) + {norm(qs[n].question)} {
      var k :| 0 <= k < |next| && norm(next[k].question) == t;
      if k < n { assert norm(init[k].question) == t; }
    }
    forall t | t in Texts(init, norm) ensures t in Texts(next, norm) {
      var k :| 0 <= k < |init| && norm(init[k].question) == t;
      assert norm(next[k].question) == t;
    }
    assert norm(next[n].question) == norm(qs[n].question);
  }

  /** The last question adds one distinct text exactly when its text did not occur before. */
  lemma TextsLast(qs: seq<Question>, norm: string -> string)
    requires qs != []
    ensures var init, text := qs[..|qs| - 1], norm(qs[|qs| - 1].question);
      |Texts(qs, norm)| == |Texts(init, norm)| + (if text in Texts(init, norm) then 0 else 1)
  {
    var n := |qs| - 1;
    TextsStep(qs, n, norm);
    assert qs[..n + 1] == qs;
  }

  /** The last question adds one duplicate record exactly when its text occurred before. */
  lemma DuplicatesStep(qs: seq<Question>, norm: string -> string)
    requires qs != []
    ensures var init := qs[..|qs| - 1];
      |DuplicatesIn(qs, norm)| == |DuplicatesIn(init, norm)| + (if norm(qs[|qs| - 1].question) in Texts(init, norm) then 1 else 0)
  {
    FirstWithTextFound(qs[..|qs| - 1], norm(qs[|qs| - 1].question), norm);
  }

  /** Every question is either the first with its text or reported once as a duplicate. */
  lemma {:induction false} DuplicatesCount(qs: seq<Question>, norm: string -> string)
    ensures |DuplicatesIn(qs, norm)| == |qs| - |Texts(qs, norm)|
    ensures |Texts(qs, norm)| <= |qs|
  {
    if qs != [] {
      var init := qs[..|qs| - 1];
      DuplicatesCount(init, norm);
      DuplicatesStep(qs, norm);
      TextsLast(qs, norm);
    }
  }

  /** No question before position `j` has the normalised text of question `j`. */
  predicate FirstOfText(qs: seq<Question>, j: int, norm: string -> string)
    requires 0 <= j < |qs|
  {
    forall m :: 0 <= m < j ==> norm(qs[m].question) != norm(qs[j].question)
  }

  /** `d` reports question `k` as a repeat of question `j`, the first with its text. */
  predicate DuplicatePair(qs: seq<Question>, j: int, k: int, d: Duplicate, norm: string -> string) {
    && 0 <= j < k < |qs|
    && qs[j].id == d.id1 && qs[k].id == d.id2 && qs[k].question == d.question
    && norm(qs[j].question) == norm(qs[k].question)
    && FirstOfText(qs, j, norm)
  }

  /** `d` pairs a question of `qs` with the first earlier question of the same normalised text. */
  predicate Genuine(qs: seq<Question>, d: Duplicate, norm: string -> string) {
    exists j, k :: 0 <= j < k < |qs| && DuplicatePair(qs, j, k, d, norm)
  }

  /** A genuine record stays genuine when more questions follow. */
  lemma GenuineExtends(qs: seq<Question>, n: nat, d: Duplicate, norm: string -> string)
    requires n <= |qs| && Genuine(qs[..n], d, norm)
    ensures Genuine(qs, d, norm)
  {
    var init := qs[..n];
    var j, k :| 0 <= j < k < |init| && DuplicatePair(init, j, k, d, norm);
    assert FirstOfText(qs, j, norm) by {
      forall m | 0 <= m < j ensures norm(qs[m].question) != norm(qs[j].question) {
        assert qs[m] == init[m] && qs[j] == init[j];
      }
    }
    assert DuplicatePair(qs, j, k, d, norm) by {
      assert qs[j] == init[j] && qs[k] == init[k];
    }
  }

  /** The record for the last question, when its text occurred before, is genuine. */
  lemma GenuineLast(qs: seq<Question>, norm: string -> string)
    requires qs != []
    requires FirstWithText(qs[..|qs| - 1], norm(qs[|qs| - 1].question), norm).Some?
    ensures var q := qs[|qs| - 1];
      Genuine(qs, Duplicate(FirstWithText(qs[..|qs| - 1], norm(q.question), norm).value.id, q.id, q.question), norm)
  {
    var n := |qs| - 1;
    var init, q := qs[..n], qs[n];
    var first := FirstWithText(init, norm(q.question), norm);
    FirstWithTextFound(init, norm(q.question), norm);
    var j :| 0 <= j < |init| && init[j] == first.value && norm(init[j].question) == norm(q.question)
      && forall m :: 0 <= m < j ==> norm(init[m].question) != norm(q.question);
    assert FirstOfText(qs, j, norm) by {
      forall m | 0 <= m < j ensures norm(qs[m].question) != norm(qs[j].question) {
        assert qs[m] == init[m] && qs[j] == init[j];
      }
    }
    assert DuplicatePair(qs, j, n, Duplicate(first.value.id, q.id, q.question), norm);
  }

  /** Every duplicate record is genuine. */
  lemma {:induction false} DuplicatesSound(qs: seq<Question>, norm: string -> string)
    ensures forall d :: d in DuplicatesIn(qs, norm) ==> Genuine(qs, d, norm)
  {
    if qs != [] {
      var n := |qs| - 1;
      var init, q := qs[..n], qs[n];
      DuplicatesSound(init, norm);
      forall d | d in DuplicatesIn(qs, norm) ensures Genuine(qs, d, norm) {
        if d in DuplicatesIn(init, norm) {
          GenuineExtends(qs, n, d, norm);
        } else {
          GenuineLast(qs, norm);
        }
      }
    }
  }

  /** The dictionary maps exactly the normalised texts of `qs`, each to the first question with it. */
  predicate SeenTexts(questionTexts: map<string, Question>, qs: seq<Question>, norm: string -> string) {
    && questionTexts.Keys == Texts(qs, norm)
    && forall t :: t in questionTexts ==> FirstWithText(qs, t, norm) == Some(questionTexts[t])
  }

  /** Looking at question `i`: its text was seen iff an earlier question has it, and
      recording an unseen text keeps the dictionary right. */
  lemma SeenStep(qs: seq<Question>, i: nat, questionTexts: map<string, Question>, norm: string -> string)
    requires i < |qs| && SeenTexts(questionTexts, qs[..i], norm)
    ensures var text := norm(qs[i].question);
      && (text in questionTexts <==> FirstWithText(qs[..i], text, norm).Some?)
      && (text in questionTexts ==> SeenTexts(questionTexts, qs[..i + 1], norm))
      && (text !in questionTexts ==> SeenTexts(questionTexts[text := qs[i]], qs[..i + 1], norm))
  {
    var text := norm(qs[i].question);
    FirstWithTextFound(qs[..i], text, norm);
    TextsStep(qs, i, norm);
    var after := if text in questionTexts then questionTexts else questionTexts[text := qs[i]];
    forall t | t in after ensures FirstWithText(qs[..i + 1], t, norm) == Some(after[t]) {
      SeenEntryStep(qs, i, questionTexts, norm, t);
    }
  }

  /** Looking at question `i` leaves the first question of an earlier text in place,
      and makes question `i` the first of a new text. */
  lemma SeenEntryStep(qs: seq<Question>, i: nat, questionTexts: map<string, Question>, norm: string -> string, t: string)
    requires i < |qs| && SeenTexts(questionTexts, qs[..i], norm)
    ensures t in questionTexts ==> FirstWithText(qs[..i + 1], t, norm) == Some(questionTexts[t])
    ensures t !in questionTexts && t == norm(qs[i].question) ==> FirstWithText(qs[..i + 1], t, norm) == Some(qs[i])
  {
    FirstWhereStep(qs, i, (q: Question) => norm(q.question) == t);
    FirstWithTextFound(qs[..i], t, norm);
  }

  /** The duplicates of one more question. */
  lemma DuplicatesPrefixStep(qs: seq<Question>, i: nat, norm: string -> string)
    requires i < |qs|
    ensures var q := qs[i];
      DuplicatesIn(qs[..i + 1], norm) == DuplicatesIn(qs[..i], norm) +
        match FirstWithText(qs[..i], norm(q.question), norm)
        case Some(first) => [Duplicate(first.id, q.id, q.question)]
        case None => []
  {
    assert qs[..i + 1][..i] == qs[..i];
  }

  /** Block 2: duplicate questions across the combined list, found with a dictionary
      from normalised text to the first question seen with it. */
  method FindDuplicates(combined: seq<Question>, norm: string -> string) returns (duplicates: seq<Duplicate>)
    ensures duplicates == DuplicatesIn(combined, norm)
    ensures |duplicates| == |combined| - |Texts(combined, norm)|
    ensures forall d :: d in duplicates ==> Genuine(combined, d, norm)
  {
    var questionTexts: map<string, Question> := map[];
    duplicates := [];
    for i := 0 to |combined|
      invariant SeenTexts(questionTexts, combined[..i], norm)
      invariant duplicates == DuplicatesIn(combined[..i], norm)
    {
      var q := combined[i];
      var normalized := norm(q.question);
      SeenStep(combined, i, questionTexts, norm);
      DuplicatesPrefixStep(combined, i, norm);
      if normalized in questionTexts {
        duplicates := duplicates + [Duplicate(questionTexts[normalized].id, q.id, q.question)];
      } else {
        questionTexts := questionTexts[normalized := q];
      }
    }
    assert combined[..|combined|] == combined;
    DuplicatesCount(combined, norm);
    DuplicatesSound(combined, norm);
  }

  // ---- 3. Duplicate options within a question ------------------------------------

  /** The distinct normalised option texts. */
  function OptionTexts(options: seq<string>, norm: string -> string): set<string> {
    set k | 0 <= k < |options| :: norm(options[k])
  }

  /** Two options of the list normalise to the same text. */
  predicate HasRepeatedOption(options: seq<string>, norm: string -> string) {
    exists a, b :: 0 <= a < b < |options| && norm(options[a]) == norm(options[b])
  }

  /** The script's test, `new Set(optionsLower).size !== optionsLower.length`, finds
      exactly the option lists with a repeated text. */
  lemma {:induction false} SetSizeDetectsRepeat(options: seq<string>, norm: string -> string)
    ensures |OptionTexts(options, norm)| <= |options|
    ensures |OptionTexts(options, norm)| != |options| <==> HasRepeatedOption(options, norm)
  {
    if options != [] {
      var n := |options| - 1;
      SetSizeDetectsRepeat(options[..n], norm);
      OptionTextsLast(options, norm);
      RepeatLast(options, norm);
    }
  }

  /** The texts of a list are those of all but its last option, plus the last one's. */
  lemma OptionTextsLast(options: seq<string>, norm: string -> string)
    requires options != []
    ensures OptionTexts(options, norm) ==
      OptionTexts(options[..|options| - 1], norm) + {norm(options[|options| - 1])}
  {
    var n := |options| - 1;
    forall t | t in OptionTexts(options, norm)
      ensures t in OptionTexts(options[..n], norm) + {norm(options[n])}
    {
      var k :| 0 <= k < |options| && norm(options[k]) == t;
      if k < n { assert norm(options[..n][k]) == t; }
    }
  }

  /** A list repeats a text exactly when all but its last option do, or the last
      option's text is among theirs. */
  lemma RepeatLast(options: seq<string>, norm: string -> string)
    requires options != []
    ensures HasRepeatedOption(options, norm) <==>
      HasRepeatedOption(options[..|options| - 1], norm) ||
      norm(options[|options| - 1]) in OptionTexts(options[..|options| - 1], norm)
  {
    var n := |options| - 1;
    var init, last := options[..n], options[n];
    if HasRepeatedOption(options, norm) {
      var a, b :| 0 <= a < b < |options| && norm(options[a]) == norm(options[b]);
      if b == n {
        assert norm(init[a]) == norm(last);
      } else {
        assert norm(init[a]) == norm(init[b]);
      }
    }
    if HasRepeatedOption(init, norm) {
      var a, b :| 0 <= a < b < |init| && norm(init[a]) == norm(init[b]);
      assert norm(options[a]) == norm(options[b]);
    }
    if norm(last) in OptionTexts(init, norm) {
      var a :| 0 <= a < n && norm(init[a]) == norm(last);
      assert norm(options[a]) == norm(options[n]);
    }
  }

  /** The script's per-question test for repeated options. */
  function RepeatTest(norm: string -> string): Question -> bool {
    (q: Question) => |OptionTexts(q.options, norm)| != |q.options|
  }

  /** The question has two options with the same normalised text. */
  function RepeatedOptions(norm: string -> string): Question -> bool {
    (q: Question) => HasRepeatedOption(q.options, norm)
  }

  /** Block 3: how many questions have two options with the same normalised text. */
  method CountDuplicateOptions(combined: seq<Question>, norm: string -> string) returns (duplicateOptionsCount: nat)
    ensures duplicateOptionsCount == |Positions(combined, RepeatedOptions(norm))|
  {
    duplicateOptionsCount := 0;
    for i := 0 to |combined|
      invariant duplicateOptionsCount == CountIf(combined[..i], RepeatTest(norm))
    {
      CountIfStep(combined, i, RepeatTest(norm));
      var optionsLower := OptionTexts(combined[i].options, norm);
      if |optionsLower| != |combined[i].options| {
        duplicateOptionsCount := duplicateOptionsCount + 1;
      }
    }
    assert combined[..|combined|] == combined;
    CountIfIsCardinality(combined, RepeatTest(norm));
    forall k | 0 <= k < |combined| ensures RepeatTest(norm)(combined[k]) == HasRepeatedOption(combined[k].options, norm) {
      SetSizeDetectsRepeat(combined[k].options, norm);
    }
    assert Positions(combined, RepeatTest(norm)) == Positions(combined, RepeatedOptions(norm));
  }

  // ---- 4. Answer index bounds ---------------------------------------------------

  /** The right-answer index is outside the options. */
  predicate InvalidAnswer(q: Question) {
    q.correctAnswer < 0 || q.correctAnswer >= |q.options|
  }

  /** Block 4: how many questions have an answer index outside their options. */
  method CountInvalidAnswers(combined: seq<Question>) returns (invalidAnswers: nat)
    ensures invalidAnswers == |Positions(combined, InvalidAnswer)|
  {
    invalidAnswers := 0;
    for i := 0 to |combined|
      invariant invalidAnswers == CountIf(combined[..i], InvalidAnswer)
    {
      CountIfStep(combined, i, InvalidAnswer);
      var q := combined[i];
      if q.correctAnswer < 0 || q.correctAnswer >= |q.options| {
        invalidAnswers := invalidAnswers + 1;
      }
    }
    assert combined[..|combined|] == combined;
    CountIfIsCardinality(combined, InvalidAnswer);
  }

  // ---- 6. Short option lists ----------------------------------------------------

  /** Fewer than four options. */
  predicate ShortOptions(q: Question) {
    |q.options| < MinOptions
  }

  /** Block 6: how many questions have fewer than four options. */
  method CountShortOptions(combined: seq<Question>) returns (shortOptionsCount: nat)
    ensures shortOptionsCount == |Positions(combined, ShortOptions)|
  {
    shortOptionsCount := 0;
    for i := 0 to |combined|
      invariant shortOptionsCount == CountIf(combined[..i], ShortOptions)
    {
      CountIfStep(combined, i, ShortOptions);
      if |combined[i].options| < MinOptions {
        shortOptionsCount := shortOptionsCount + 1;
      }
    }
    assert combined[..|combined|] == combined;
    CountIfIsCardinality(combined, ShortOptions);
  }

  // ---- 5. Per-rule statistics ---------------------------------------------------

  /** The rules the questions are about. */
  function RulesOf(qs: seq<Question>): set<int> {
    set k | 0 <= k < |qs| :: qs[k].rule
  }

  /** A rule's line in the statistics: its number of questions and the rule name the first of them gives. */
  datatype RuleStat = RuleStat(count: nat, ruleName: string)

  /** Strictly increasing. */
  predicate Ascending(s: seq<int>) {
    forall i, j :: 0 <= i < j < |s| ==> s[i] < s[j]
  }

  /** `k` inserted into the ascending list `s` at its place. */
  function Insert(s: seq<int>, k: int): (r: seq<int>)
    requires Ascending(s) && k !in s
    ensures Ascending(r)
    ensures forall x :: x in r <==> x in s || x == k
  {
    if s == [] || k < s[0] then [k] + s
    else
      var tail := Insert(s[1..], k);
      assert forall x :: x in tail ==> s[0] < x by {
        forall x | x in tail ensures s[0] < x {
          if x != k {
            var j :| 0 <= j < |s[1..]| && s[1..][j] == x;
            assert s[j + 1] == x;
          }
        }
      }
      var r := [s[0]] + tail;
      forall i, j | 0 <= i < j < |r| ensures r[i] < r[j] {
        assert r[j] == tail[j - 1] && tail[j - 1] in tail;
        if i > 0 { assert r[i] == tail[i - 1]; }
      }
      assert s == [s[0]] + s[1..];
      r
  }

  /** `Object.keys(stats).sort((a, b) => a - b)`: the keys in increasing order. */
  method SortAscending(keys: set<int>) returns (order: seq<int>)
    ensures Ascending(order)
    ensures forall x :: x in order <==> x in keys
  {
    order := [];
    var rest := keys;
    while |rest| > 0
      invariant rest <= keys
      invariant Ascending(order)
      invariant forall x :: x in order <==> x in keys && x !in rest
      decreases |rest|
    {
      assert exists k :: k in rest by {
        if forall k :: k !in rest { assert false; }
      }
      var k :| k in rest;
      order := Insert(order, k);
      rest := rest - {k};
    }
  }

  /** The number of questions on each rule of `rs`, summed. */
  function SumCounts(qs: seq<Question>, rs: seq<int>): nat {
    if rs == [] then 0 else CountWithRule(qs, rs[0]) + SumCounts(qs, rs[1..])
  }

  /** No rule is listed twice. */
  predicate Distinct(rs: seq<int>) {
    forall i, j :: 0 <= i < j < |rs| ==> rs[i] != rs[j]
  }

  lemma {:induction false} SumCountsEmpty(rs: seq<int>)
    ensures SumCounts([], rs) == 0
  {
    if rs != [] { SumCountsEmpty(rs[1..]); }
  }

  /** The last question adds one to the sum when its rule is listed (once). */
  lemma {:induction false} SumCountsStep(qs: seq<Question>, rs: seq<int>)
    requires qs != [] && Distinct(rs)
    ensures SumCounts(qs, rs) == SumCounts(qs[..|qs| - 1], rs) + (if qs[|qs| - 1].rule in rs then 1 else 0)
  {
    if rs != [] {
      var tail := rs[1..];
      assert Distinct(tail) by {
        forall i, j | 0 <= i < j < |tail| ensures tail[i] != tail[j] { assert tail[i] == rs[i + 1]; }
      }
      assert qs[|qs| - 1].rule == rs[0] ==> qs[|qs| - 1].rule !in tail by {
        if qs[|qs| - 1].rule in tail {
          var j :| 0 <= j < |tail| && tail[j] == qs[|qs| - 1].rule;
          assert rs[j + 1] == tail[j];
        }
      }
      assert qs[|qs| - 1].rule in rs <==> qs[|qs| - 1].rule == rs[0] || qs[|qs| - 1].rule in tail by {
        assert rs == [rs[0]] + tail;
      }
      SumCountsStep(qs, tail);
    }
  }

  /** Counting the questions rule by rule, over a list that names every rule once,
      counts every question exactly once. */
  lemma {:induction false} CountsPartition(qs: seq<Question>, rs: seq<int>)
    requires Distinct(rs)
    requires forall k :: 0 <= k < |qs| ==> qs[k].rule in rs
    ensures SumCounts(qs, rs) == |qs|
  {
    if qs == [] {
      SumCountsEmpty(rs);
    } else {
      var init := qs[..|qs| - 1];
      assert forall k :: 0 <= k < |init| ==> init[k].rule in rs by {
        forall k | 0 <= k < |init| ensures init[k].rule in rs { assert init[k] == qs[k]; }
      }
      CountsPartition(init, rs);
      SumCountsStep(qs, rs);
    }
  }

  /** Block 5: per rule present in the combined list, the number of its questions and the
      rule name of its first question, with the rules in increasing order; the counts add
      up to the number of questions. */
  method RuleStatistics(combined: seq<Question>) returns (stats: map<int, RuleStat>, order: seq<int>)
    ensures stats.Keys == RulesOf(combined)
    ensures forall r :: r in stats ==>
      && stats[r].count == |Positions(combined, OnRule(r))|
      && FirstWhere(combined, OnRule(r)).Some?
      && stats[r].ruleName == FirstWhere(combined, OnRule(r)).value.ruleName
    ensures Ascending(order)
    ensures forall r :: r in order <==> r in stats
    ensures SumCounts(combined, order) == |combined|
  {
    stats := map[];
    for i := 0 to |combined|
      invariant StatsOf(stats, combined[..i])
    {
      var q := combined[i];
      StatsStep(combined, i, stats);
      stats := stats[q.rule := NextEntry(stats, q)];
    }
    assert combined[..|combined|] == combined;
    StatsCounted(combined, stats);
    order := SortAscending(stats.Keys);
    StatsTotal(combined, stats, order);
  }

  /** Each line's count is the number of questions on its rule. */
  lemma StatsCounted(qs: seq<Question>, stats: map<int, RuleStat>)
    requires StatsOf(stats, qs)
    ensures forall r :: r in stats ==> stats[r].count == |Positions(qs, OnRule(r))|
  {
    forall r | r in stats ensures stats[r].count == |Positions(qs, OnRule(r))| {
      CountIfIsCardinality(qs, OnRule(r));
    }
  }

  /** Listing the rules present once each, the counts add up to the number of questions. */
  lemma StatsTotal(qs: seq<Question>, stats: map<int, RuleStat>, order: seq<int>)
    requires StatsOf(stats, qs) && Ascending(order) && forall r :: r in order <==> r in stats
    ensures SumCounts(qs, order) == |qs|
  {
    forall k | 0 <= k < |qs| ensures qs[k].rule in order {
      assert qs[k].rule in RulesOf(qs);
    }
    CountsPartition(qs, order);
  }

  /** `stats` holds, for each rule present in `qs`, its count and the rule name of its first question. */
  predicate StatsOf(stats: map<int, RuleStat>, qs: seq<Question>) {
    && stats.Keys == RulesOf(qs)
    && forall r :: r in stats ==>
      && stats[r].count == CountWithRule(qs, r)
      && FirstWhere(qs, OnRule(r)).Some?
      && stats[r].ruleName == FirstWhere(qs, OnRule(r)).value.ruleName
  }

  /** Question `q`'s rule's line once `q` is recorded: one more question, or a new line
      with the question's rule name. */
  function NextEntry(stats: map<int, RuleStat>, q: Question): (e: RuleStat)
    ensures q.rule in stats ==> e.count == stats[q.rule].count + 1 && e.ruleName == stats[q.rule].ruleName
    ensures q.rule !in stats ==> e.count == 1 && e.ruleName == q.ruleName
  {
    if q.rule in stats then stats[q.rule].(count := stats[q.rule].count + 1) else RuleStat(1, q.ruleName)
  }

  /** Recording one more question keeps the statistics right. */
  lemma StatsStep(qs: seq<Question>, i: nat, stats: map<int, RuleStat>)
    requires i < |qs| && StatsOf(stats, qs[..i])
    ensures StatsOf(stats[qs[i].rule := NextEntry(stats, qs[i])], qs[..i + 1])
  {
    RulesStep(qs, i);
    var after := stats[qs[i].rule := NextEntry(stats, qs[i])];
    forall r | r in after
      ensures after[r].count == CountWithRule(qs[..i + 1], r)
      ensures FirstWhere(qs[..i + 1], OnRule(r)).Some?
      ensures after[r].ruleName == FirstWhere(qs[..i + 1], OnRule(r)).value.ruleName
    {
      StatsCountStep(qs, i, stats, after, r);
      StatsNameStep(qs, i, stats, after, r);
    }
  }

  /** Recording one more question keeps rule `r`'s count right. */
  lemma StatsCountStep(qs: seq<Question>, i: nat, stats: map<int, RuleStat>, after: map<int, RuleStat>, r: int)
    requires i < |qs| && StatsOf(stats, qs[..i])
    requires after == stats[qs[i].rule := NextEntry(stats, qs[i])]
    requires r in after
    ensures after[r].count == CountWithRule(qs[..i + 1], r)
  {
    CountIfStep(qs, i, OnRule(r));
    if r !in stats {
      AbsentRuleCount(qs[..i], r);
    }
  }

  /** Recording one more question keeps rule `r`'s name that of its first question. */
  lemma StatsNameStep(qs: seq<Question>, i: nat, stats: map<int, RuleStat>, after: map<int, RuleStat>, r: int)
    requires i < |qs| && StatsOf(stats, qs[..i])
    requires after == stats[qs[i].rule := NextEntry(stats, qs[i])]
    requires r in after
    ensures FirstWhere(qs[..i + 1], OnRule(r)).Some?
    ensures after[r].ruleName == FirstWhere(qs[..i + 1], OnRule(r)).value.ruleName
  {
    FirstWhereStep(qs, i, OnRule(r));
    if r !in stats {
      AbsentRuleCount(qs[..i], r);
    }
  }

  /** One more question adds its rule to the rules present. */
  lemma RulesStep(qs: seq<Question>, i: nat)
    requires i < |qs|
    ensures RulesOf(qs[..i + 1]) == RulesOf(qs[..i]) + {qs[i].rule}
  {
    var next, init := qs[..i + 1], qs[..i];
    forall r | r in RulesOf(next) ensures r in RulesOf(init) + {qs[i].rule} {
      var k :| 0 <= k < |next| && next[k].rule == r;
      if k < i { assert init[k].rule == r; }
    }
    forall r | r in RulesOf(init) ensures r in RulesOf(next) {
      var k :| 0 <= k < |init| && init[k].rule == r;
      assert next[k].rule == r;
    }
    assert next[i].rule == qs[i].rule;
  }

  // ---- 7. Rules short of basic questions ----------------------------------------

  /** A rule with fewer than three basic questions: its number, how many it has, its name. */
  datatype FewRule = FewRule(rule: int, count: nat, name: string)

  /** Block 7: in increasing rule order, every rule 1..17 with fewer than three basic
      questions, with its count (zero for a rule no question is about) and its name. */
  method RulesWithFewQuestions(basic: seq<Question>) returns (few: seq<FewRule>)
    ensures forall k :: 0 <= k < |few| ==>
      && 1 <= few[k].rule <= LastRule
      && few[k].count == |Positions(basic, OnRule(few[k].rule))| < FewQuestions
      && few[k].name == RuleName(few[k].rule)
    ensures forall k, l :: 0 <= k < l < |few| ==> few[k].rule < few[l].rule
    ensures forall r :: 1 <= r <= LastRule && |Positions(basic, OnRule(r))| < FewQuestions ==>
      exists k :: 0 <= k < |few| && few[k].rule == r
  {
    var basicRulesCoverage := CountByRule(basic);
    few := [];
    for i := 1 to LastRule + 1
      invariant FewBelow(few, basic, i)
    {
      if i !in basicRulesCoverage {
        AbsentRuleCount(basic, i);
      }
      var count := if i in basicRulesCoverage then basicRulesCoverage[i] else 0;
      FewStep(few, basic, i, count);
      if count < FewQuestions {
        few := few + [FewRule(i, count, RuleName(i))];
      }
    }
    forall r ensures CountWithRule(basic, r) == |Positions(basic, OnRule(r))| {
      CountIfIsCardinality(basic, OnRule(r));
    }
  }

  /** `few` lists, in increasing order, exactly the rules 1..i-1 with fewer than three
      questions in `basic`, each with its count and name. */
  predicate FewBelow(few: seq<FewRule>, basic: seq<Question>, i: int) {
    FewSound(few, basic, i) && FewSorted(few) && FewComplete(few, basic, i)
  }

  /** Every line of `few` is a rule below `i` with fewer than three questions, its count and its name. */
  predicate FewSound(few: seq<FewRule>, basic: seq<Question>, i: int) {
    forall k :: 0 <= k < |few| ==>
      && 1 <= few[k].rule < i && few[k].rule <= LastRule
      && few[k].count == CountWithRule(basic, few[k].rule) < FewQuestions
      && few[k].name == RuleName(few[k].rule)
  }

  /** The rules of `few` increase. */
  predicate FewSorted(few: seq<FewRule>) {
    forall k, l :: 0 <= k < l < |few| ==> few[k].rule < few[l].rule
  }

  /** Every rule below `i` with fewer than three questions has a line in `few`. */
  predicate FewComplete(few: seq<FewRule>, basic: seq<Question>, i: int) {
    forall r :: 1 <= r < i && CountWithRule(basic, r) < FewQuestions ==> exists k :: 0 <= k < |few| && few[k].rule == r
  }

  /** Looking at rule `i` keeps the list right. */
  lemma FewStep(few: seq<FewRule>, basic: seq<Question>, i: int, count: nat)
    requires 1 <= i <= LastRule && FewBelow(few, basic, i) && count == CountWithRule(basic, i)
    ensures count < FewQuestions ==> FewBelow(few + [FewRule(i, count, RuleName(i))], basic, i + 1)
    ensures count >= FewQuestions ==> FewBelow(few, basic, i + 1)
  {
    if count < FewQuestions {
      var after := few + [FewRule(i, count, RuleName(i))];
      FewSoundStep(few, basic, i, after);
      FewSortedStep(few, i, after);
      FewCompleteStep(few, basic, i, after);
    }
  }

  /** Appending rule `i`'s line keeps every line right. */
  lemma FewSoundStep(few: seq<FewRule>, basic: seq<Question>, i: int, after: seq<FewRule>)
    requires 1 <= i <= LastRule && FewSound(few, basic, i) && CountWithRule(basic, i) < FewQuestions
    requires after == few + [FewRule(i, CountWithRule(basic, i), RuleName(i))]
    ensures FewSound(after, basic, i + 1)
  {
    forall k | 0 <= k < |after|
      ensures 1 <= after[k].rule < i + 1 && after[k].rule <= LastRule
      ensures after[k].count == CountWithRule(basic, after[k].rule) < FewQuestions
      ensures after[k].name == RuleName(after[k].rule)
    {
      if k < |few| { assert after[k] == few[k]; }
    }
  }

  /** Appending rule `i`, above every rule listed, keeps the rules increasing. */
  lemma FewSortedStep(few: seq<FewRule>, i: int, after: seq<FewRule>)
    requires FewSorted(few) && forall k :: 0 <= k < |few| ==> few[k].rule < i
    requires |after| == |few| + 1 && after[..|few|] == few && after[|few|].rule == i
    ensures FewSorted(after)
  {
    forall k, l | 0 <= k < l < |after| ensures after[k].rule < after[l].rule {
      assert after[k] == few[k];
      if l < |few| { assert after[l] == few[l]; }
    }
  }

  /** Appending rule `i`'s line lists every rule up to `i` with fewer than three questions. */
  lemma FewCompleteStep(few: seq<FewRule>, basic: seq<Question>, i: int, after: seq<FewRule>)
    requires FewComplete(few, basic, i)
    requires |after| == |few| + 1 && after[..|few|] == few && after[|few|].rule == i
    ensures FewComplete(after, basic, i + 1)
  {
    forall r | 1 <= r < i + 1 && CountWithRule(basic, r) < FewQuestions
      ensures exists k :: 0 <= k < |after| && after[k].rule == r
    {
      if r < i {
        var k :| 0 <= k < |few| && few[k].rule == r;
        assert after[k] == few[k];
      } else {
        assert after[|few|].rule == r;
      }
    }
  }

  /** The number of questions on each rule present, as the script tallies them in a dictionary. */
  method CountByRule(qs: seq<Question>) returns (counts: map<int, nat>)
    ensures counts.Keys == RulesOf(qs)
    ensures forall r :: r in counts ==> counts[r] == CountWithRule(qs, r)
  {
    counts := map[];
    for i := 0 to |qs|
      invariant counts.Keys == RulesOf(qs[..i])
      invariant forall r :: r in counts ==> counts[r] == CountWithRule(qs[..i], r)
    {
      var q := qs[i];
      RulesStep(qs, i);
      forall r ensures CountWithRule(qs[..i + 1], r) == CountWithRule(qs[..i], r) + (if q.rule == r then 1 else 0) {
        CountIfStep(qs, i, OnRule(r));
      }
      if q.rule !in counts {
        AbsentRuleCount(qs[..i], q.rule);
        counts := counts[q.rule := 0];
      }
      counts := counts[q.rule := counts[q.rule] + 1];
    }
    assert qs[..|qs|] == qs;
  }

  /** No question is about a rule absent from the list. */
  lemma AbsentRuleCount(qs: seq<Question>, r: int)
    requires r !in RulesOf(qs)
    ensures CountWithRule(qs, r) == 0
    ensures FirstWhere(qs, OnRule(r)).None?
  {
    CountIfIsCardinality(qs, OnRule(r));
    assert Positions(qs, OnRule(r)) == {};
    assert forall k :: 0 <= k < |qs| ==> !OnRule(r)(qs[k]);
  }
}
