/**
 * Line splitting of a fetched page body, as Python's `bytes.splitlines()`
 * does it, and the length of the longest line.
 *
 * The body is a byte string, so every length here is a number of bytes.
 * For `bytes` the only line boundaries are LF, CR and the pair CR LF, which
 * counts as one boundary; a boundary at the very end adds no empty line.
 */
module Lines {

  newtype Byte = b: int | 0 <= b < 256

  const CR: Byte := 13
  const LF: Byte := 10

  predicate IsBreak(b: Byte) {
    b == CR || b == LF
  }

  predicate BreakFree(s: seq<Byte>) {
    forall i :: 0 <= i < |s| ==> !IsBreak(s[i])
  }

  /** Index of the first CR or LF in `s`, or |s| when there is none. */
  function LineEnd(s: seq<Byte>): (e: nat)
    ensures e <= |s|
    ensures forall i :: 0 <= i < e ==> !IsBreak(s[i])
    ensures e < |s| ==> IsBreak(s[e])
  {
    if s == [] then 0
    else if IsBreak(s[0]) then 0
    else 1 + LineEnd(s[1..])
  }

  /**
   * Where the next line starts once the current one ends at `e`: after a
   * CR LF pair taken as one boundary, after a lone CR or LF, or at the end.
   */
  function NextStart(s: seq<Byte>, e: nat): (n: nat)
    requires e <= |s|
    requires e < |s| ==> IsBreak(s[e])
    ensures e <= n <= |s|
    ensures e < |s| ==> e < n
    ensures n == e + 2 ==> s[e] == CR && s[e + 1] == LF
  {
    if e == |s| then e
    else if s[e] == CR && e + 1 < |s| && s[e + 1] == LF then e + 2
    else e + 1
  }

  /**
   * The lines of `body` without their terminators. No line holds a CR or
   * LF, there are no lines exactly when the body is empty, and no line is
   * longer than the body.
   */
  function SplitLines(body: seq<Byte>): (lines: seq<seq<Byte>>)
    ensures |lines| == 0 <==> |body| == 0
    ensures forall l :: l in lines ==> BreakFree(l) && |l| <= |body|
    decreases |body|
  {
    if body == [] then []
    else
      var e := LineEnd(body);
      [body[..e]] + SplitLines(body[NextStart(body, e)..])
  }

  /** The bytes the lines stand for when each is given back a single LF. */
  function Terminated(lines: seq<seq<Byte>>): seq<Byte> {
    if lines == [] then [] else lines[0] + [LF] + Terminated(lines[1..])
  }

  /** `s` with every CR LF pair and every lone CR replaced by one LF. */
  function UnifyBreaks(s: seq<Byte>): seq<Byte>
    decreases |s|
  {
    if s == [] then []
    else if s[0] == CR && |s| > 1 && s[1] == LF then [LF] + UnifyBreaks(s[2..])
    else if IsBreak(s[0]) then [LF] + UnifyBreaks(s[1..])
    else [s[0]] + UnifyBreaks(s[1..])
  }

  /** True when the last byte of a non-empty `s` is not a line boundary. */
  predicate EndsUnterminated(s: seq<Byte>) {
    s != [] && !IsBreak(s[|s| - 1])
  }

  /** LineEnd is the only index that ends a break-free prefix at a boundary or at the end. */
  lemma LineEndUnique(s: seq<Byte>, e: nat)
    requires e <= |s| && forall i :: 0 <= i < e ==> !IsBreak(s[i])
    requires e < |s| ==> IsBreak(s[e])
    ensures LineEnd(s) == e
  {
  }

  lemma {:induction false} UnifyBreakFreePrefix(a: seq<Byte>, b: seq<Byte>)
    requires BreakFree(a)
    ensures UnifyBreaks(a + b) == a + UnifyBreaks(b)
    decreases |a|
  {
    if a != [] {
      assert !IsBreak(a[0]);
      assert (a + b)[0] == a[0];
      assert (a + b)[1..] == a[1..] + b;
      assert BreakFree(a[1..]) by {
        forall i | 0 <= i < |a[1..]| ensures !IsBreak(a[1..][i]) {
          assert a[1..][i] == a[i + 1];
        }
      }
      UnifyBreakFreePrefix(a[1..], b);
      calc {
        UnifyBreaks(a + b);
        [a[0]] + UnifyBreaks(a[1..] + b);
        [a[0]] + (a[1..] + UnifyBreaks(b));
        { assert a == [a[0]] + a[1..]; }
        a + UnifyBreaks(b);
      }
    } else {
      assert a + b == b;
    }
  }

  /** The boundary at `e` becomes one LF, whatever its kind. */
  lemma UnifyAtBreak(s: seq<Byte>, e: nat)
    requires e < |s| && IsBreak(s[e])
    ensures UnifyBreaks(s[e..]) == [LF] + UnifyBreaks(s[NextStart(s, e)..])
  {
    var t := s[e..];
    if NextStart(s, e) == e + 2 {
      assert t[2..] == s[e + 2..];
    } else {
      assert t[1..] == s[e + 1..];
    }
  }

  /** What follows a boundary ends unterminated exactly when the whole does. */
  lemma EndsUnterminatedAfterBreak(s: seq<Byte>, e: nat)
    requires e < |s| && IsBreak(s[e])
    ensures EndsUnterminated(s) == EndsUnterminated(s[NextStart(s, e)..])
  {
    var n := NextStart(s, e);
    var rest := s[n..];
    if rest != [] {
      assert rest[|rest| - 1] == s[|s| - 1];
    } else if n == e + 2 {
      assert s[|s| - 1] == LF;
    } else {
      assert s[|s| - 1] == s[e];
    }
  }

  /** The LF that Terminated adds for a last line that had no terminator. */
  function FinalBreak(s: seq<Byte>): seq<Byte> {
    if EndsUnterminated(s) then [LF] else []
  }

  /**
   * Splitting loses nothing but the kind of each boundary: giving every line
   * back one LF yields the body with its boundaries unified to LF, plus one
   * LF when the body's last line had no terminator.
   */
  lemma {:induction false} SplitLinesRoundTrip(body: seq<Byte>)
    ensures Terminated(SplitLines(body)) == UnifyBreaks(body) + FinalBreak(body)
    decreases |body|
  {
    if body != [] {
      var e := LineEnd(body);
      var line := body[..e];
      var rest := body[NextStart(body, e)..];
      assert SplitLines(body) == [line] + SplitLines(rest);
      assert body == line + body[e..];
      assert BreakFree(line) by {
        forall i | 0 <= i < e ensures !IsBreak(line[i]) {
          assert line[i] == body[i];
        }
      }
      UnifyBreakFreePrefix(line, body[e..]);
      if e == |body| {
        assert line == body && rest == [];
        assert body[e..] == [];
        assert SplitLines(body) == [body];
        TerminatedCons(body, []);
      } else {
        SplitLinesRoundTrip(rest);
        UnifyAtBreak(body, e);
        EndsUnterminatedAfterBreak(body, e);
        calc {
          Terminated(SplitLines(body));
          { TerminatedCons(line, SplitLines(rest)); }
          line + [LF] + Terminated(SplitLines(rest));
          line + [LF] + (UnifyBreaks(rest) + FinalBreak(rest));
          { assert FinalBreak(rest) == FinalBreak(body); }
          line + [LF] + (UnifyBreaks(rest) + FinalBreak(body));
          { Regroup(line, [LF], UnifyBreaks(rest), FinalBreak(body)); }
          line + ([LF] + UnifyBreaks(rest)) + FinalBreak(body);
          line + UnifyBreaks(body[e..]) + FinalBreak(body);
          UnifyBreaks(body) + FinalBreak(body);
        }
      }
    }
  }

  lemma Regroup(a: seq<Byte>, b: seq<Byte>, c: seq<Byte>, d: seq<Byte>)
    ensures a + b + (c + d) == a + (b + c) + d
  {
  }

  lemma TerminatedCons(line: seq<Byte>, lines: seq<seq<Byte>>)
    ensures Terminated([line] + lines) == line + [LF] + Terminated(lines)
  {
    assert ([line] + lines)[1..] == lines;
  }

  /**
   * A boundary after the last line adds no empty line: appending LF, CR or
   * CR LF to a body whose last byte is no boundary leaves the lines as they
   * were.
   */
  lemma {:induction false} TrailingBreakAddsNoLine(body: seq<Byte>, t: seq<Byte>)
    requires EndsUnterminated(body)
    requires t == [LF] || t == [CR] || t == [CR, LF]
    ensures SplitLines(body + t) == SplitLines(body)
    decreases |body|
  {
    var s := body + t;
    var e := LineEnd(body);
    if e < |body| {
      assert e + 1 < |body|;
      LineEndUnique(s, e);
      var n := NextStart(body, e);
      assert NextStart(s, e) == n;
      assert n < |body|;
      assert s[n..] == body[n..] + t;
      assert s[..e] == body[..e];
      TrailingBreakAddsNoLine(body[n..], t);
      calc {
        SplitLines(s);
        [s[..e]] + SplitLines(s[n..]);
        [body[..e]] + SplitLines(body[n..]);
        SplitLines(body);
      }
    } else {
      assert s[..|body|] == body;
      assert forall i :: 0 <= i < |body| ==> s[i] == body[i];
      LineEndUnique(s, |body|);
      assert NextStart(s, |body|) == |s|;
      assert s[|s|..] == [];
      assert SplitLines(s) == [body] + SplitLines([]);
      assert body[..|body|] == body && body[|body|..] == [];
      assert SplitLines(body) == [body] + SplitLines([]);
    }
  }

  /**
   * Python's `max(len(line) for line in lines) if lines else 0`: zero for no
   * lines, otherwise the length of some line and at least that of every line.
   */
  function LargestLineLength(lines: seq<seq<Byte>>): (m: nat)
    ensures lines == [] ==> m == 0
    ensures forall l :: l in lines ==> |l| <= m
    ensures lines != [] ==> exists l :: l in lines && |l| == m
  {
    if lines == [] then 0
    else
      var rest := LargestLineLength(lines[1..]);
      if |lines[0]| >= rest then |lines[0]| else rest
  }
}
