/** The question records the analysis script reads out of the quiz page, and the
    counting and searching it does over lists of them. */
module Questions {
  import opened Wrappers

  /** One quiz question: its id, the number and name of the Law of the Game it is
      about, the question text, the answer options and the index of the right one. */
  datatype Question = Question(id: int, rule: int, ruleName: string, question: string,
                               options: seq<string>, correctAnswer: int)

  /** One match of the question pattern in the page source: the digit captures read
      as numbers, and the quoted option strings found in the options capture, if any. */
  datatype Capture = Capture(id: nat, rule: nat, ruleName: string, question: string,
                             quotedOptions: Option<seq<string>>, correctAnswer: nat)

  /** `parseQuestions`: no array found gives no questions; otherwise one question per
      match, in order, with no options when the options capture has no quoted string.
      The digit-only captures make every id, rule and answer index non-negative. */
  method ParseQuestions(found: Option<seq<Capture>>) returns (questions: seq<Question>)
    ensures found.None? ==> questions == []
    ensures found.Some? ==> |questions| == |found.value|
    ensures found.Some? ==> forall i :: 0 <= i < |questions| ==>
      var c := found.value[i];
      && questions[i].id == c.id && questions[i].rule == c.rule
      && questions[i].ruleName == c.ruleName && questions[i].question == c.question
      && questions[i].options == c.quotedOptions.GetOr([])
      && questions[i].correctAnswer == c.correctAnswer
    ensures forall q :: q in questions ==> q.id >= 0 && q.rule >= 0 && q.correctAnswer >= 0
  {
    questions := [];
    if found.None? {
      return;
    }
    var matches := found.value;
    var k := 0;
    while k < |matches|
      invariant 0 <= k <= |matches|
      invariant |questions| == k
      invariant forall i :: 0 <= i < k ==>
        var c := matches[i];
        && questions[i].id == c.id && questions[i].rule == c.rule
        && questions[i].ruleName == c.ruleName && questions[i].question == c.question
        && questions[i].options == c.quotedOptions.GetOr([])
        && questions[i].correctAnswer == c.correctAnswer
    {
      var m := matches[k];
      var options := if m.quotedOptions.Some? then m.quotedOptions.value else [];
      questions := questions + [Question(m.id, m.rule, m.ruleName, m.question, options, m.correctAnswer)];
      k := k + 1;
    }
  }

  /** How many elements of `s` satisfy `p`. */
  function CountIf<T>(s: seq<T>, p: T -> bool): (n: nat)
    ensures n <= |s|
  {
    if s == [] then 0 else CountIf(s[..|s| - 1], p) + (if p(s[|s| - 1]) then 1 else 0)
  }

  lemma CountIfStep<T>(s: seq<T>, i: nat, p: T -> bool)
    requires i < |s|
    ensures CountIf(s[..i + 1], p) == CountIf(s[..i], p) + (if p(s[i]) then 1 else 0)
  {
    assert s[..i + 1][..i] == s[..i];
  }

  /** The positions of `s` whose element satisfies `p`. */
  function Positions<T>(s: seq<T>, p: T -> bool): set<int> {
    set i | 0 <= i < |s| && p(s[i])
  }

  /** The count is the number of positions whose element satisfies `p`. */
  lemma {:induction false} CountIfIsCardinality<T>(s: seq<T>, p: T -> bool)
    ensures CountIf(s, p) == |Positions(s, p)|
  {
    if s != [] {
      var n := |s| - 1;
      var init := s[..n];
      CountIfIsCardinality(init, p);
      var before, after := Positions(init, p), Positions(s, p);
      assert before == set i | 0 <= i < n && p(s[i]);
      if p(s[n]) {
        assert after == before + {n};
        assert n !in before;
      } else {
        assert after == before;
      }
    }
  }

  /** The first element of `s` that satisfies `p`, if any. */
  function FirstWhere<T>(s: seq<T>, p: T -> bool): (r: Option<T>)
    ensures r.Some? <==> exists i :: 0 <= i < |s| && p(s[i])
    ensures r.Some? ==> exists i :: 0 <= i < |s| && s[i] == r.value && p(s[i])
                                   && forall j :: 0 <= j < i ==> !p(s[j])
  {
    if s == [] then None
    else if p(s[0]) then Some(s[0])
    else
      var r := FirstWhere(s[1..], p);
      assert (exists i :: 0 <= i < |s| && p(s[i])) ==> exists i :: 0 <= i < |s[1..]| && p(s[1..][i]) by {
        if exists i :: 0 <= i < |s| && p(s[i]) {
          var i :| 0 <= i < |s| && p(s[i]);
          assert p(s[1..][i - 1]);
        }
      }
      assert r.Some? ==> exists i :: 0 <= i < |s| && s[i] == r.value && p(s[i]) && forall j :: 0 <= j < i ==> !p(s[j]) by {
        if r.Some? {
          var i :| 0 <= i < |s[1..]| && s[1..][i] == r.value && p(s[1..][i]) && forall j :: 0 <= j < i ==> !p(s[1..][j]);
          assert forall j :: 0 <= j < i + 1 ==> !p(s[j]) by {
            forall j | 0 <= j < i + 1 ensures !p(s[j]) {
              if j > 0 { assert s[j] == s[1..][j - 1]; }
            }
          }
        }
      }
      r
  }

  /** Extending the list at the end changes the first match only where there was none. */
  lemma {:induction false} FirstWhereStep<T>(s: seq<T>, i: nat, p: T -> bool)
    requires i < |s|
    ensures FirstWhere(s[..i + 1], p) ==
      if FirstWhere(s[..i], p).Some? then FirstWhere(s[..i], p)
      else if p(s[i]) then Some(s[i]) else None
  {
    if i > 0 {
      assert s[..i + 1][1..] == s[1..][..i];
      assert s[..i][1..] == s[1..][..i - 1];
      FirstWhereStep(s[1..], i - 1, p);
    }
  }
}
