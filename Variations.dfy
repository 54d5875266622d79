/**
 * `generate_question_variations` in main.py: the paraphrasing agent's reply is
 * split into lines, each line is stripped, and blank lines are dropped. A reply
 * that is not a `str` gives no variations.
 */
module Variations {
  import opened Text
  import opened Oracle

  /** `[v.strip() for v in lines if v.strip()]`. */
  function NonBlankStripped(lines: seq<string>): (vs: seq<string>)
    ensures |vs| <= |lines|
  {
    if lines == [] then []
    else
      var v := Strip(lines[0]);
      var rest := NonBlankStripped(lines[1..]);
      if v != [] then [v] + rest else rest
  }

  /** Every kept variation is non-empty and stripped. */
  lemma {:induction false} KeptAreStripped(lines: seq<string>)
    ensures forall k :: 0 <= k < |NonBlankStripped(lines)| ==>
      NonBlankStripped(lines)[k] != [] && IsStripped(NonBlankStripped(lines)[k])
  {
    if lines != [] {
      var rest := NonBlankStripped(lines[1..]);
      KeptAreStripped(lines[1..]);
      var v := Strip(lines[0]);
      var vs := NonBlankStripped(lines);
      if v != [] {
        assert vs == [v] + rest;
        forall k | 0 <= k < |vs|
          ensures vs[k] != [] && IsStripped(vs[k])
        {
          if k > 0 {
            assert vs[k] == rest[k - 1];
          }
        }
      } else {
        assert vs == rest;
      }
    }
  }

  /** Lines without a newline give variations without one. */
  lemma {:induction false} KeptHaveNoNewline(lines: seq<string>)
    requires forall j :: 0 <= j < |lines| ==> '\n' !in lines[j]
    ensures forall k :: 0 <= k < |NonBlankStripped(lines)| ==> '\n' !in NonBlankStripped(lines)[k]
  {
    if lines != [] {
      var rest := NonBlankStripped(lines[1..]);
      KeptHaveNoNewline(lines[1..]);
      var v := Strip(lines[0]);
      StrippedLineHasNoNewline(lines[0]);
      var vs := NonBlankStripped(lines);
      if v != [] {
        assert vs == [v] + rest;
        forall k | 0 <= k < |vs|
          ensures '\n' !in vs[k]
        {
          if k > 0 {
            assert vs[k] == rest[k - 1];
          }
        }
      } else {
        assert vs == rest;
      }
    }
  }

  /** A line without a newline strips to text without one. */
  lemma StrippedLineHasNoNewline(line: string)
    requires '\n' !in line
    ensures '\n' !in Strip(line)
  {
    var v := Strip(line);
    forall k | 0 <= k < |v|
      ensures v[k] != '\n'
    {
      StripIsInfix(line, k);
    }
  }

  lemma StripIsInfix(s: string, k: nat)
    requires k < |Strip(s)|
    ensures Strip(s)[k] in s
  {
    var t := TrimStart(s);
    var r := TrimEnd(t);
    assert Strip(s) == r;
    assert r[k] == t[k];
    assert t[k] == s[|s| - |t| + k];
  }

  /**
   * `generate_question_variations`: a reply that is not a `str` gives no
   * variations; otherwise its lines, stripped, without the blank ones.
   */
  function GenerateVariations(reply: Value): (vs: seq<string>)
    ensures !reply.isStr ==> vs == []
    ensures reply.isStr ==> |vs| <= Count(reply.text, '\n') + 1
    ensures forall k :: 0 <= k < |vs| ==> vs[k] != [] && IsStripped(vs[k])
  {
    if reply.isStr then
      var lines := SplitLines(reply.text);
      KeptAreStripped(lines);
      NonBlankStripped(lines)
    else []
  }

  function StripAll(lines: seq<string>): (r: seq<string>)
    ensures |r| == |lines| && forall k :: 0 <= k < |r| ==> r[k] == Strip(lines[k])
  {
    seq(|lines|, k requires 0 <= k < |lines| => Strip(lines[k]))
  }

  lemma StripAllCons(lines: seq<string>)
    requires lines != []
    ensures StripAll(lines) == [Strip(lines[0])] + StripAll(lines[1..])
  {
    var ys := StripAll(lines);
    assert ys[1..] == StripAll(lines[1..]);
  }

  /** The number of lines that are not all whitespace. */
  function CountNonBlank(lines: seq<string>): nat {
    if lines == [] then 0 else (if AllSpace(lines[0]) then 0 else 1) + CountNonBlank(lines[1..])
  }

  /** The kept variations are the stripped lines, in their original order, one for each line that is not blank. */
  lemma {:induction false} NonBlankStrippedKeepsOrder(lines: seq<string>)
    ensures IsSubsequence(NonBlankStripped(lines), StripAll(lines))
    ensures |NonBlankStripped(lines)| == CountNonBlank(lines)
  {
    if lines != [] {
      NonBlankStrippedKeepsOrder(lines[1..]);
      var v := Strip(lines[0]);
      var ys := StripAll(lines);
      StripAllCons(lines);
      assert ys[0] == v && ys[1..] == StripAll(lines[1..]);
      var rest := NonBlankStripped(lines[1..]);
      var vs := NonBlankStripped(lines);
      if v != [] {
        assert vs == [v] + rest && vs[1..] == rest;
      } else {
        assert vs == rest;
        if rest != [] {
          // a blank line is skipped: it cannot be the next kept variation
          KeptAreStripped(lines[1..]);
          assert rest[0] != ys[0];
        }
      }
    }
  }

  /**
   * main.py:83-84 as a whole: a non-`str` reply gives nothing; otherwise every
   * variation is a non-empty, stripped piece of one line of the reply, they come
   * in line order, there is one per non-blank line and so no more than there
   * are lines.
   */
  lemma VariationsAreCleanLines(reply: Value)
    ensures !reply.isStr ==> GenerateVariations(reply) == []
    ensures reply.isStr ==>
      var lines := SplitLines(reply.text);
      var vs := GenerateVariations(reply);
      && |vs| == CountNonBlank(lines) <= |lines| == Count(reply.text, '\n') + 1
      && IsSubsequence(vs, StripAll(lines))
      && forall k :: 0 <= k < |vs| ==> vs[k] != [] && IsStripped(vs[k]) && '\n' !in vs[k]
  {
    if reply.isStr {
      var lines := SplitLines(reply.text);
      NonBlankStrippedKeepsOrder(lines);
      KeptAreStripped(lines);
      KeptHaveNoNewline(lines);
    }
  }
}
