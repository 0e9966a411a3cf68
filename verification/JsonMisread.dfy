/**
  Texts on which healing fails, beginnings of well-formed JSON: `{"a":"x:\\ud83d\u` is misread, and
  in `{"x":1e999,"a":"b` a number is refused, so that it is dropped with everything behind it.
  */
module JsonMisread {
  import opened Base
  import opened JsonText
  import opened JsonSax
  import opened JsonCompletions
  import opened JsonEscapes
  import opened JsonHealing

  const MEMBER := "{\"a\":"
  const BODY := "\"x:\\\\"
  const LOOKS_HIGH := "ud83d"
  const OPEN_ESCAPE := "\\u"

  /** The text in front of the open escape. */
  function Prelude(): string { MEMBER + BODY + LOOKS_HIGH }

  function Example(): string { Prelude() + OPEN_ESCAPE }

  lemma MemberRuns()
    ensures Run(START, MEMBER) == At([InObject], Value)
  {
    Run5(START, '{', '"', 'a', '"', ':');
    assert [] + [InObject] == [InObject];
  }

  lemma BodyRuns()
    ensures Run(At([InObject], Value), BODY) == At([InObject], Str(false, Plain, false))
  {
    Run5(At([InObject], Value), '"', 'x', ':', '\\', '\\');
  }

  lemma LooksRun()
    ensures Run(At([InObject], Str(false, Plain, false)), LOOKS_HIGH) == At([InObject], Str(false, Plain, false))
  {
    Run5(At([InObject], Str(false, Plain, false)), 'u', 'd', '8', '3', 'd');
  }

  lemma PreludeRuns()
    ensures Run(START, MEMBER) == At([InObject], Value)
    ensures Run(START, Prelude()) == At([InObject], Str(false, Plain, false))
  {
    hide Step, Run;
    MemberRuns();
    BodyRuns();
    LooksRun();
    RunAppend(START, MEMBER, BODY);
    RunAppend(START, MEMBER + BODY, LOOKS_HIGH);
  }

  lemma ExampleRuns()
    ensures Run(START, Example()) == At([InObject], Str(false, Hex(""), false))
  {
    PreludeRuns();
    var st := At([InObject], Str(false, Plain, false));
    Run2(st, '\\', 'u');
    assert OPEN_ESCAPE == ['\\', 'u'];
    assert Step(Step(st, '\\'), 'u') == At([InObject], Str(false, Hex(""), false));
    hide Step;
    RunAppend(START, Prelude(), OPEN_ESCAPE);
  }

  lemma LastColon(s: string)
    requires |s| == 17 && s[7] == ':' && forall i :: 8 <= i < 17 ==> s[i] != ':'
    ensures LastOf(s, {':'}) == Some(7)
  {
  }

  lemma CutIsInside()
    ensures CutsInside(Example(), [InObject])
  {
    var s := Example();
    MemberRuns();
    assert |s| == 17 && s[7] == ':' && forall i :: 8 <= i < 17 ==> s[i] != ':';
    assert s[..8] == MEMBER + ['"', 'x', ':'];
    Run3(At([InObject], Value), '"', 'x', ':');
    RunAppend(START, MEMBER, ['"', 'x', ':']);
    hide Run, Step, Example, LastOf;
    LastColon(s);
  }

  /** The text can be completed, but the code does not heal it well. */
  lemma MisreadExample()
    ensures Alive(Example()) && Misread(Example())
  {
    var s, prelude := Example(), Prelude();
    ExampleRuns();
    CutIsInside();
    hide Run, Step, CutsInside;
    assert s[..|s| - 2] == prelude;
    assert |prelude| == 15 && prelude[9] == '\\' && prelude[10] == 'u' && prelude[11] == 'd' && prelude[12] == '8'
           && prelude[13] == '3' && prelude[14] == 'd';
    assert EscapeAt(prelude, 9);
    LastEscapeIs(prelude, 9);
    assert IsHigh(prelude[9..]);
  }
  // ---------------------------------------------------------------- a number that is not finite

  /** `{"x":1e999,"a":"b`, a beginning of JSON. */
  const LARGE := "{\"x\":" + "1e999" + ",\"a\":\"b"

  lemma LargeStates(k: nat)
    requires 5 <= k <= 11
    ensures Run(START, LARGE[..k])
            == At([InObject], if k == 5 then Value
                              else if k == 6 then Num(JsonText.Digits)
                              else if k == 7 then Num(Exp)
                              else if k <= 10 then Num(ExpDigits)
                              else Key)
  {
    if k == 5 {
      assert LARGE[..5] == ['{', '"', 'x', '"', ':'];
      Run5(START, '{', '"', 'x', '"', ':');
      assert [] + [InObject] == [InObject];
    } else {
      LargeStates(k - 1);
      assert LARGE[..k][..k - 1] == LARGE[..k - 1];
    }
  }

  lemma LargeToken()
    ensures TokenStart(LARGE[..10]) == 5 && LARGE[5..10] == "1e999" && NumberStopsAt(LARGE, 10)
  {
    hide Run;
    LargeStates(5);
    LargeStates(6);
    LargeStates(7);
    LargeStates(8);
    LargeStates(9);
    LargeStates(10);
    LargeStates(11);
    TokenFrom(LARGE, 6);
    TokenFrom(LARGE, 7);
    TokenFrom(LARGE, 8);
    TokenFrom(LARGE, 9);
    TokenFrom(LARGE, 10);
  }

  lemma TokenFrom(s: string, i: nat)
    requires 0 < i <= |s|
    ensures TokenStart(s[..i]) == if InNumberAt(s[..i - 1]) then TokenStart(s[..i - 1]) else i - 1
  {
    hide Run;
    assert s[..i][..i - 1] == s[..i - 1];
  }

  lemma LargeIsAlive()
    ensures Alive(LARGE) && !Misread(LARGE)
  {
    LargeStates(11);
    Run5(At([InObject], Key), '"', 'a', '"', ':', '"');
    RunOne(At([InObject], Str(false, Plain, false)), 'b');
    assert LARGE == LARGE[..11] + (['"', 'a', '"', ':', '"'] + ['b']);
    hide Run, Step;
    RunAppend(START, LARGE[..11], ['"', 'a', '"', ':', '"'] + ['b']);
    RunAppend(At([InObject], Key), ['"', 'a', '"', ':', '"'], ['b']);
  }

  /** A number that is not finite as a `double` is refused, in a text that can be completed. */
  lemma LargeIsRefused(finite: Finite)
    requires !finite("1e999")
    ensures Alive(LARGE) && !Misread(LARGE) && RefusedAt(finite, LARGE, 10) && !AllRead(finite, LARGE)
  {
    hide Run, Step;
    LargeIsAlive();
    LargeToken();
  }
}
