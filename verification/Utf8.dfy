/** UTF-8 as Go's strings package sees it. */
module Utf8 {
  import opened Bytes

  const QUESTION: byte := 63

  predicate Cont(b: byte) { 0x80 <= b <= 0xBF }

  /** The length of the well-formed sequence at the front of `s`, or 0. */
  function RuneLen(s: seq<byte>): (n: nat)
    ensures n <= |s|
  {
    if s == [] then 0
    else if s[0] < 0x80 then 1
    else if 0xC2 <= s[0] <= 0xDF then if |s| >= 2 && Cont(s[1]) then 2 else 0
    else if 0xE0 <= s[0] <= 0xEF then
      if |s| >= 3 && Cont(s[1]) && Cont(s[2]) && (s[0] == 0xE0 ==> s[1] >= 0xA0) && (s[0] == 0xED ==> s[1] <= 0x9F)
      then 3 else 0
    else if 0xF0 <= s[0] <= 0xF4 then
      if |s| >= 4 && Cont(s[1]) && Cont(s[2]) && Cont(s[3]) && (s[0] == 0xF0 ==> s[1] >= 0x90) && (s[0] == 0xF4 ==> s[1] <= 0x8F)
      then 4 else 0
    else 0
  }

  predicate Valid(s: seq<byte>)
    decreases |s|
  {
    s == [] || (RuneLen(s) > 0 && Valid(s[RuneLen(s)..]))
  }

  /** strings.ToValidUTF8(s, "?"): every run of invalid bytes becomes one question mark. */
  function ToValid(s: seq<byte>, inRun: bool): seq<byte>
    decreases |s|
  {
    if s == [] then []
    else if RuneLen(s) > 0 then s[..RuneLen(s)] + ToValid(s[RuneLen(s)..], false)
    else (if inRun then [] else [QUESTION]) + ToValid(s[1..], true)
  }

  lemma {:induction false} ValidIsKept(s: seq<byte>, inRun: bool)
    requires Valid(s)
    ensures ToValid(s, inRun) == s
    decreases |s|
  {
    if s != [] {
      ValidIsKept(s[RuneLen(s)..], false);
    }
  }

  lemma RuneThen(r: seq<byte>, t: seq<byte>)
    requires r != [] && RuneLen(r) == |r| && Valid(t)
    ensures Valid(r + t)
  {
    assert RuneLen(r + t) == |r|;
    assert (r + t)[|r|..] == t;
  }

  lemma {:induction false} ResultIsValid(s: seq<byte>, inRun: bool)
    ensures Valid(ToValid(s, inRun))
    decreases |s|
  {
    if s != [] {
      if RuneLen(s) > 0 {
        ResultIsValid(s[RuneLen(s)..], false);
        RuneThen(s[..RuneLen(s)], ToValid(s[RuneLen(s)..], false));
      } else {
        ResultIsValid(s[1..], true);
        if inRun {
          assert [] + ToValid(s[1..], true) == ToValid(s[1..], true);
        } else {
          RuneThen([QUESTION], ToValid(s[1..], true));
        }
      }
    }
  }

  /** The result holds no byte the text did not, but for question marks. */
  lemma {:induction false} AddsOnlyMarks(s: seq<byte>, inRun: bool, b: byte)
    requires b in ToValid(s, inRun) && b != QUESTION
    ensures b in s
    decreases |s|
  {
    if RuneLen(s) > 0 {
      if b !in s[..RuneLen(s)] {
        AddsOnlyMarks(s[RuneLen(s)..], false, b);
      }
    } else {
      AddsOnlyMarks(s[1..], true, b);
    }
  }

  /** A text is left alone exactly when it is valid. */
  lemma KeptIff(s: seq<byte>)
    ensures ToValid(s, false) == s <==> Valid(s)
  {
    ResultIsValid(s, false);
    if Valid(s) {
      ValidIsKept(s, false);
    }
  }
}
