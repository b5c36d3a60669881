/** Cutting a line into words: the maximal alphabetic runs of a line, the tokens the parser
    really cuts, and exactly when the two agree. */
module Tokenizer {

  type Byte = x: int | 0 <= x < 256
  type Text = seq<Byte>

  /** The C locale's letters. */
  predicate IsAlpha(b: Byte) {
    65 <= b <= 90 || 97 <= b <= 122
  }

  lemma LettersExact(b: Byte)
    ensures IsAlpha(b) <==> 'A' <= b as char <= 'Z' || 'a' <= b as char <= 'z'
  {
  }

  /** A line as it stands in a buffer: no NUL inside. */
  predicate IsLine(line: Text) {
    0 !in line
  }

  // ----- the words of a line ------------------------------------------------

  /** `line[b..e]` is a run of letters that cannot be extended on either side. */
  predicate MaximalRun(line: Text, b: int, e: int) {
    && 0 <= b < e <= |line|
    && (forall i :: b <= i < e ==> IsAlpha(line[i]))
    && (b > 0 ==> !IsAlpha(line[b - 1]))
    && (e < |line| ==> !IsAlpha(line[e]))
  }

  /** First letter at or after `i`. */
  function WordStart(line: Text, i: nat): (b: nat)
    requires i <= |line|
    ensures i <= b <= |line|
    ensures forall j :: i <= j < b ==> !IsAlpha(line[j])
    ensures b < |line| ==> IsAlpha(line[b])
    decreases |line| - i
  {
    if i == |line| || IsAlpha(line[i]) then i else WordStart(line, i + 1)
  }

  /** First position at or after `i` that holds no letter. */
  function WordEnd(line: Text, i: nat): (e: nat)
    requires i <= |line|
    ensures i <= e <= |line|
    ensures forall j :: i <= j < e ==> IsAlpha(line[j])
    ensures e < |line| ==> !IsAlpha(line[e])
    decreases |line| - i
  {
    if i == |line| || !IsAlpha(line[i]) then i else WordEnd(line, i + 1)
  }

  /** The bounds of the words of a line from `i` on. */
  function Runs(line: Text, i: nat): seq<(nat, nat)>
    requires i <= |line|
    decreases |line| - i
  {
    var b := WordStart(line, i);
    if b == |line| then []
    else
      var e := WordEnd(line, b);
      [(b, e)] + Runs(line, e)
  }

  /** The words of a line from `i` on. */
  function Words(line: Text, i: nat): seq<Text>
    requires i <= |line|
    decreases |line| - i
  {
    var b := WordStart(line, i);
    if b == |line| then []
    else
      var e := WordEnd(line, b);
      [line[b..e]] + Words(line, e)
  }

  /** Where the scan may stand: not inside a run of letters. */
  predicate Between(line: Text, i: nat) {
    i <= |line| && (0 < i < |line| ==> !IsAlpha(line[i - 1]) || !IsAlpha(line[i]))
  }

  /** Every run found is maximal, and they come in order. */
  lemma {:induction false} RunsSound(line: Text, i: nat)
    requires Between(line, i)
    ensures forall r :: r in Runs(line, i) ==> i <= r.0 && MaximalRun(line, r.0, r.1)
    ensures forall k, m :: 0 <= k < m < |Runs(line, i)| ==> Runs(line, i)[k].1 <= Runs(line, i)[m].0
    decreases |line| - i
  {
    var b := WordStart(line, i);
    if b < |line| {
      RunsSound(line, WordEnd(line, b));
    }
  }

  /** Every maximal run is found. */
  lemma {:induction false} RunsComplete(line: Text, i: nat, b: nat, e: nat)
    requires i <= b && MaximalRun(line, b, e)
    ensures (b, e) in Runs(line, i)
    decreases |line| - i
  {
    var b0 := WordStart(line, i);
    assert IsAlpha(line[b]);
    var e0 := WordEnd(line, b0);
    if b == b0 {
      assert IsAlpha(line[e - 1]);
      assert e0 == e;
    } else {
      assert b0 < b;
      assert b > 0 && !IsAlpha(line[b - 1]);
      RunsComplete(line, e0, b, e);
    }
  }

  /** The words of a line are exactly its maximal runs of letters, once each and in order. */
  lemma {:induction false} WordsExact(line: Text, i: nat)
    requires i <= |line|
    ensures |Words(line, i)| == |Runs(line, i)|
    ensures forall k :: 0 <= k < |Words(line, i)| ==>
              Runs(line, i)[k].0 <= Runs(line, i)[k].1 <= |line| && Words(line, i)[k] == line[Runs(line, i)[k].0..Runs(line, i)[k].1]
    decreases |line| - i
  {
    var b := WordStart(line, i);
    if b < |line| {
      WordsExact(line, WordEnd(line, b));
    }
  }

  // ----- the tokens the parser cuts -----------------------------------------

  /** Where StrStrip stops: at the bound, at the end of the line or at a letter. */
  function StripStop(line: Text, i: nat, bound: int): (j: nat)
    requires i <= |line|
    ensures i <= j <= |line|
    decreases |line| - i
  {
    if i < bound && i < |line| && !IsAlpha(line[i]) then StripStop(line, i + 1, bound) else i
  }

  /** Where StrTok stops: at the bound, at the end of the line or at a non-letter. */
  function TokStop(line: Text, i: nat, bound: int): (j: nat)
    requires i <= |line|
    ensures i <= j <= |line|
    decreases |line| - i
  {
    if i < bound && i < |line| && IsAlpha(line[i]) then TokStop(line, i + 1, bound) else i
  }

  /** Where the next token starts, from index `i`, in a buffer of length `max`: the helpers
      compare the absolute index with the length that remains, so they may stop early. */
  function TokenStart(line: Text, i: nat, max: nat): (b: nat)
    requires i <= |line|
    ensures i <= b <= |line|
  {
    StripStop(line, i, max - i)
  }

  function TokenEnd(line: Text, b: nat, max: nat): (e: nat)
    requires b <= |line|
    ensures b <= e <= |line|
  {
    TokStop(line, b, max - b)
  }

  /** Where StrSplit leaves off after the token `line[b..e]`. */
  function Resume(line: Text, b: nat, e: nat, max: nat): (k: nat)
    requires e < |line|
    ensures e < k <= |line|
  {
    StripStop(line, e + 1, max - b - (e + 1))
  }

  /** The tokens cut from index `i` on. */
  function Tokens(line: Text, i: nat, max: nat): seq<Text>
    requires i <= |line|
    decreases |line| - i
  {
    if i >= max || i == |line| then []
    else
      var b := TokenStart(line, i, max);
      if b == |line| then []
      else
        var e := TokenEnd(line, b, max);
        if e == |line| || b + e + 1 > max then [line[b..e]]
        else [line[b..e]] + Tokens(line, Resume(line, b, e, max), max)
  }

  lemma {:induction false} StripStopAt(line: Text, i: nat, bound: int)
    requires i <= |line|
    ensures var b := WordStart(line, i);
            StripStop(line, i, bound) == if i >= bound then i else if bound < b then bound else b
    decreases |line| - i
  {
    if i < bound && i < |line| && !IsAlpha(line[i]) {
      StripStopAt(line, i + 1, bound);
    }
  }

  lemma {:induction false} TokStopAt(line: Text, i: nat, bound: int)
    requires i <= |line|
    ensures var e := WordEnd(line, i);
            TokStop(line, i, bound) == if i >= bound then i else if bound < e then bound else e
    decreases |line| - i
  {
    if i < bound && i < |line| && IsAlpha(line[i]) {
      TokStopAt(line, i + 1, bound);
    }
  }

  lemma {:induction false} WordStartSkips(line: Text, i: nat, k: nat)
    requires i <= |line| && i <= k <= WordStart(line, i)
    ensures WordStart(line, k) == WordStart(line, i) && Words(line, k) == Words(line, i)
    decreases k - i
  {
    if i < k {
      WordStartSkips(line, i + 1, k);
    }
  }

  /** Whether tokens and words agree from index `i` on, word by word. */
  predicate Fits(line: Text, i: nat, max: nat)
    requires i <= |line|
    decreases |line| - i
  {
    var b := WordStart(line, i);
    if b == |line| then i == |line| || i + |line| <= max
    else
      var e := WordEnd(line, b);
      && b + e <= max
      && (e == |line| || (if b + e == max then WordStart(line, e) == |line|
                          else Fits(line, Resume(line, b, e, max), max)))
  }

  lemma StartsRight(line: Text, i: nat, max: nat)
    requires i <= |line| <= max
    ensures var b := WordStart(line, i);
            && TokenStart(line, i, max) <= b
            && (TokenStart(line, i, max) == b <==> i == b || i + b <= max)
  {
    StripStopAt(line, i, max - i);
  }

  lemma EndsRight(line: Text, b: nat, max: nat)
    requires b < |line| <= max && IsAlpha(line[b])
    ensures var e := WordEnd(line, b);
            && TokenEnd(line, b, max) <= e
            && (TokenEnd(line, b, max) == e <==> b + e <= max)
  {
    TokStopAt(line, b, max - b);
  }

  lemma ResumesRight(line: Text, b: nat, e: nat, max: nat)
    requires b <= e < |line| && !IsAlpha(line[e])
    ensures WordStart(line, Resume(line, b, e, max)) == WordStart(line, e) && Words(line, Resume(line, b, e, max)) == Words(line, e)
  {
    StripStopAt(line, e + 1, max - b - (e + 1));
    WordStartSkips(line, e, Resume(line, b, e, max));
  }

  lemma ConsEqual(x: Text, s: seq<Text>, y: Text, t: seq<Text>)
    ensures [x] + s == [y] + t <==> x == y && s == t
  {
    assert ([x] + s)[0] == x && ([x] + s)[1..] == s;
    assert ([y] + t)[0] == y && ([y] + t)[1..] == t;
  }

  /** The tokens that follow the one at `line[b..e]`. */
  function MoreTokens(line: Text, b: nat, e: nat, max: nat): seq<Text>
    requires b <= e <= |line|
  {
    if e == |line| || b + e + 1 > max then [] else Tokens(line, Resume(line, b, e, max), max)
  }

  lemma TokensStep(line: Text, i: nat, max: nat)
    requires i < |line| <= max && TokenStart(line, i, max) < |line|
    ensures var b := TokenStart(line, i, max); var e := TokenEnd(line, b, max);
            Tokens(line, i, max) == [line[b..e]] + MoreTokens(line, b, e, max)
  {
  }

  /** Cut short, or cut empty, a token is not the word. */
  lemma CutShort(line: Text, i: nat, max: nat)
    requires i < |line| <= max
    requires var b := WordStart(line, i); TokenStart(line, i, max) < b || (b < |line| && TokenEnd(line, b, max) < WordEnd(line, b))
    ensures Tokens(line, i, max) != Words(line, i) && !Fits(line, i, max)
  {
    var b := WordStart(line, i);
    StartsRight(line, i, max);
    TokensStep(line, i, max);
    if b < |line| {
      EndsRight(line, b, max);
      var e := WordEnd(line, b);
      assert Words(line, i)[0] == line[b..e];
    }
  }

  /** Tokens and words agree from `i` on exactly when every one of them fits. */
  lemma {:induction false} TokensFit(line: Text, i: nat, max: nat)
    requires i <= |line| <= max
    ensures Tokens(line, i, max) == Words(line, i) <==> Fits(line, i, max)
    decreases |line| - i
  {
    var b := WordStart(line, i);
    StartsRight(line, i, max);
    if i == |line| {
    } else if TokenStart(line, i, max) < b {
      CutShort(line, i, max);
    } else if b < |line| {
      var e := WordEnd(line, b);
      EndsRight(line, b, max);
      if TokenEnd(line, b, max) < e {
        CutShort(line, i, max);
      } else {
        TokensStep(line, i, max);
        ConsEqual(line[b..e], MoreTokens(line, b, e, max), line[b..e], Words(line, e));
        if e < |line| && b + e < max {
          ResumesRight(line, b, e, max);
          TokensFit(line, Resume(line, b, e, max), max);
        }
      }
    }
  }

  // ----- when a line is cut exactly -----------------------------------------

  /** The last word of a line that has one from `i` on. */
  function LastRun(line: Text, i: nat): (r: (nat, nat))
    requires i <= |line| && WordStart(line, i) < |line|
    ensures i <= r.0 < r.1 <= |line|
    decreases |line| - i
  {
    var b := WordStart(line, i);
    var e := WordEnd(line, b);
    if WordStart(line, e) == |line| then (b, e) else LastRun(line, e)
  }

  /** The last word `line[b..e]` ends before the bound it is compared with, and what follows it
      does not make the parser cut an empty token. */
  predicate LastFits(line: Text, b: nat, e: nat, max: nat)
    requires b < e <= |line|
  {
    && b + e <= max
    && (e == |line| || b + e == max || Resume(line, b, e, max) == |line| || Resume(line, b, e, max) + |line| <= max)
  }

  /** What a line must meet to be cut into its words: a condition on its last word only. */
  predicate LineFits(line: Text, max: nat) {
    WordStart(line, 0) == |line| || LastFits(line, LastRun(line, 0).0, LastRun(line, 0).1, max)
  }

  lemma {:induction false} FitsLast(line: Text, i: nat, max: nat)
    requires i <= |line| <= max && WordStart(line, i) < |line|
    ensures Fits(line, i, max) <==> LastFits(line, LastRun(line, i).0, LastRun(line, i).1, max)
    decreases |line| - i
  {
    var b := WordStart(line, i);
    var e := WordEnd(line, b);
    if e < |line| {
      ResumesRight(line, b, e, max);
      if WordStart(line, e) < |line| {
        var k := Resume(line, b, e, max);
        FitsLast(line, k, max);
        LastRunSkips(line, e, k);
      }
    }
  }

  lemma LastRunSkips(line: Text, i: nat, k: nat)
    requires i <= |line| && k <= |line| && WordStart(line, k) == WordStart(line, i) < |line|
    ensures LastRun(line, k) == LastRun(line, i)
  {
  }

  /** The parser cuts a line into exactly its words if and only if `LineFits`. */
  lemma CutExactly(line: Text, max: nat)
    requires |line| <= max
    ensures Tokens(line, 0, max) == Words(line, 0) <==> LineFits(line, max)
  {
    TokensFit(line, 0, max);
    if WordStart(line, 0) < |line| {
      FitsLast(line, 0, max);
    }
  }

  /** In particular every line no longer than half the buffer is. */
  lemma HalfLinesFit(line: Text, max: nat)
    requires 2 * |line| <= max
    ensures Tokens(line, 0, max) == Words(line, 0)
  {
    CutExactly(line, max);
  }

  /** Six thousand blanks and a two-letter word, in the server's buffer of 10,240 bytes, are not. */
  lemma LongLineMisread()
    ensures var line := seq<Byte>(6000, _ => 32) + [97, 98];
            Words(line, 0) == [[97, 98]] && Tokens(line, 0, 10240) != Words(line, 0)
  {
    var line := seq<Byte>(6000, _ => 32) + [97, 98];
    assert forall j :: 0 <= j < 6000 ==> !IsAlpha(line[j]);
    assert IsAlpha(line[6000]) && IsAlpha(line[6001]);
    assert WordStart(line, 0) == 6000;
    assert WordEnd(line, 6000) == 6002;
    assert WordStart(line, 6002) == |line|;
    assert line[6000..6002] == [97, 98];
    CutExactly(line, 10240);
  }

  // ----- the scanning helpers -----------------------------------------------

  /** The buffer holds the rest of the line from `i` on, ended by a NUL. */
  ghost predicate Holds(buf: array<Byte>, line: Text, i: nat)
    reads buf
  {
    && i <= |line| < buf.Length && buf[|line|] == 0
    && forall j :: i <= j < |line| ==> buf[j] == line[j]
  }

  method StrTok(buf: array<Byte>, start: nat, bound: int, index: nat, ghost line: Text) returns (ptr: nat, newIndex: nat)
    requires IsLine(line) && Holds(buf, line, start) && index == start
    ensures ptr == newIndex == TokStop(line, start, bound)
  {
    ptr, newIndex := start, index;
    while newIndex < bound && buf[ptr] != 0 && IsAlpha(buf[ptr])
      invariant start <= ptr == newIndex <= |line| && TokStop(line, start, bound) == TokStop(line, ptr, bound)
      decreases |line| - ptr
    {
      ptr, newIndex := ptr + 1, newIndex + 1;
    }
    assert ptr < |line| ==> line[ptr] in line;
  }

  method StrStrip(buf: array<Byte>, start: nat, bound: int, index: nat, ghost line: Text) returns (ptr: nat, newIndex: nat)
    requires IsLine(line) && Holds(buf, line, start) && index == start
    ensures ptr == newIndex == StripStop(line, start, bound)
  {
    ptr, newIndex := start, index;
    while newIndex < bound && buf[ptr] != 0 && !IsAlpha(buf[ptr])
      invariant start <= ptr == newIndex <= |line| && StripStop(line, start, bound) == StripStop(line, ptr, bound)
      decreases |line| - ptr
    {
      ptr, newIndex := ptr + 1, newIndex + 1;
    }
    assert ptr < |line| ==> line[ptr] in line;
  }

  /** Ends the token at `end` with a NUL and skips on; past the remaining length it gives up,
      pointing at that NUL. */
  method StrSplit(buf: array<Byte>, end: nat, bound: int, index: nat, ghost line: Text) returns (ptr: nat, newIndex: nat)
    requires IsLine(line) && Holds(buf, line, end) && end < |line| && index == end
    modifies buf
    ensures buf[..] == old(buf[..])[end := 0]
    ensures newIndex == if end + 1 > bound then end + 1 else StripStop(line, end + 1, bound - (end + 1))
    ensures ptr == if end + 1 > bound then end else newIndex
  {
    buf[end] := 0;
    newIndex := index + 1;
    if newIndex > bound {
      ptr := end;
    } else {
      ptr, newIndex := StrStrip(buf, end + 1, bound - newIndex, newIndex, line);
    }
  }
}
