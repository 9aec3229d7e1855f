/** The web console's line clean-up (raising-bot-web/src/utils/consoleUtils.ts):
    strip the `[TS:...]` prefix that the bot's print wrapper puts on every line, and
    collapse the once-a-second market-open countdown to its latest line. */
module ConsoleUtils {

  const TsOpen: string := "[TS:"
  const CountdownPrefix: string := "Waiting for market open:"

  /** The characters JavaScript's `\s` class matches. */
  predicate IsJsWhitespace(c: char) {
    || c == '\t' || c == '\n' || c == '\U{000B}' || c == '\U{000C}' || c == '\r' || c == ' '
    || c == '\U{00A0}' || c == '\U{1680}' || ('\U{2000}' <= c <= '\U{200A}')
    || c == '\U{2028}' || c == '\U{2029}' || c == '\U{202F}' || c == '\U{205F}'
    || c == '\U{3000}' || c == '\U{FEFF}'
  }

  predicate StartsWith(s: string, prefix: string) {
    |prefix| <= |s| && s[..|prefix|] == prefix
  }

  predicate AllWhitespace(s: string) {
    forall i :: 0 <= i < |s| ==> IsJsWhitespace(s[i])
  }

  /** The greedy `\s*`: drops the longest all-whitespace prefix. */
  function SkipWhitespace(s: string): (r: string)
    ensures |r| <= |s| && r == s[|s| - |r|..]
    ensures AllWhitespace(s[..|s| - |r|])
    ensures r == [] || !IsJsWhitespace(r[0])
  {
    if s != [] && IsJsWhitespace(s[0]) then
      var r := SkipWhitespace(s[1..]);
      assert s[..|s| - |r|] == [s[0]] + s[1..][..|s[1..]| - |r|];
      r
    else
      s
  }

  /** Index of the first `]` at or after `from`, or |s| when there is none. */
  function CloseIndex(s: string, from: nat): (k: nat)
    requires from <= |s|
    ensures from <= k <= |s|
    ensures k < |s| ==> s[k] == ']'
    ensures forall j :: from <= j < k ==> s[j] != ']'
    decreases |s| - from
  {
    if from == |s| || s[from] == ']' then from else CloseIndex(s, from + 1)
  }

  // stripTimestamp: the pattern is anchored at the start, "[TS:" is followed by one or
  // more characters other than ']' (so it runs up to the first ']'), then ']' and the
  // longest run of whitespace; the match is replaced by nothing.
  function StripTimestamp(line: string): (r: string)
    ensures !StartsWith(line, TsOpen) ==> r == line
    ensures |r| <= |line| && r == line[|line| - |r|..]
    ensures r != line ==> r == [] || !IsJsWhitespace(r[0])
  {
    if StartsWith(line, TsOpen) then
      var k := CloseIndex(line, 4);
      if 4 < k < |line| then SkipWhitespace(line[k + 1..]) else line
    else
      line
  }

  /** One leading `[TS:ts]` block and the whitespace after it are removed, and nothing more. */
  lemma StripTimestampBlock(ts: string, ws: string, text: string)
    requires |ts| > 0 && ']' !in ts
    requires AllWhitespace(ws)
    requires text == [] || !IsJsWhitespace(text[0])
    ensures StripTimestamp(TsOpen + ts + "]" + ws + text) == text
  {
    var line := TsOpen + ts + "]" + ws + text;
    var k := 4 + |ts|;
    Layout(TsOpen, ts, ']', ws, text);
    assert StartsWith(line, TsOpen);
    CloseIndexFirst(line, 4, k);
    SkipWhitespaceOver(ws, text);
  }

  /** Where the parts of `a + b + [c] + d + e` sit. */
  lemma Layout<T>(a: seq<T>, b: seq<T>, c: T, d: seq<T>, e: seq<T>)
    ensures var l := a + b + [c] + d + e;
            && l[..|a|] == a && l[|a| + |b|] == c
            && (forall j :: |a| <= j < |a| + |b| ==> l[j] == b[j - |a|])
            && l[|a| + |b| + 1..] == d + e
  {
  }

  lemma CloseIndexFirst(s: string, from: nat, k: nat)
    requires from <= k < |s| && s[k] == ']'
    requires forall j :: from <= j < k ==> s[j] != ']'
    ensures CloseIndex(s, from) == k
  {
  }

  lemma {:induction false} SkipWhitespaceOver(ws: string, text: string)
    requires AllWhitespace(ws)
    requires text == [] || !IsJsWhitespace(text[0])
    ensures SkipWhitespace(ws + text) == text
  {
    if ws != [] {
      assert (ws + text)[1..] == ws[1..] + text;
      SkipWhitespaceOver(ws[1..], text);
    }
  }

  /** A line as the bot's print wrapper writes it (print_utils.py:6-7): the bracketed
      timestamp, a space, then the message. Stripping gives back the message. */
  lemma StripPrintedLine(ts: string, message: string)
    requires |ts| > 0 && ']' !in ts
    requires message == [] || !IsJsWhitespace(message[0])
    ensures StripTimestamp(TsOpen + ts + "] " + message) == message
  {
    assert TsOpen + ts + "] " + message == TsOpen + ts + "]" + " " + message;
    StripTimestampBlock(ts, " ", message);
  }

  /** `[TS:]` has nothing between the brackets, so the pattern does not match. */
  lemma EmptyTimestampKept(rest: string)
    ensures StripTimestamp("[TS:]" + rest) == "[TS:]" + rest
  {
    var line := "[TS:]" + rest;
    assert line[..4] == TsOpen;
    assert line[4] == ']';
  }

  predicate IsCountdown(line: string) {
    StartsWith(StripTimestamp(line), CountdownPrefix)
  }

  predicate IsOther(line: string) {
    !IsCountdown(line)
  }

  /** `Array.prototype.filter`: the elements satisfying `keep`, in their original order. */
  function Filter<T>(s: seq<T>, keep: T -> bool): seq<T> {
    if s == [] then []
    else Filter(s[..|s| - 1], keep) + (if keep(s[|s| - 1]) then [s[|s| - 1]] else [])
  }

  /** `dedupeCountdowns`: the countdown lines and the other lines are told apart by the
      stripped text; the lines themselves are kept as they came. */
  function DedupeCountdowns(lines: seq<string>): seq<string> {
    var cds := Filter(lines, IsCountdown);
    if |cds| > 0 then Filter(lines, IsOther) + [cds[|cds| - 1]] else lines
  }

  // ---- properties of filter ----

  /** A filter and its complement split the input. */
  lemma {:induction false} FilterSplit<T>(s: seq<T>, p: T -> bool, q: T -> bool)
    requires forall x :: q(x) == !p(x)
    ensures |Filter(s, p)| + |Filter(s, q)| == |s|
    ensures forall x :: x in Filter(s, p) ==> x in s && p(x)
    ensures Filter(s, p) == [] <==> forall i :: 0 <= i < |s| ==> !p(s[i])
  {
    if s != [] {
      var init, last := s[..|s| - 1], s[|s| - 1];
      assert s == init + [last];
      FilterSplit(init, p, q);
      if Filter(s, p) == [] {
        forall i | 0 <= i < |s| ensures !p(s[i]) {
          if i < |init| { assert s[i] == init[i]; }
        }
      }
    }
  }

  lemma {:induction false} FilterAppend<T>(a: seq<T>, b: seq<T>, p: T -> bool)
    ensures Filter(a + b, p) == Filter(a, p) + Filter(b, p)
  {
    if b != [] {
      var ib := b[..|b| - 1];
      assert (a + b)[..|a + b| - 1] == a + ib;
      FilterAppend(a, ib, p);
    } else {
      assert a + b == a;
    }
  }

  /** Filtering what a filter kept changes nothing; filtering it by the complement keeps nothing. */
  lemma {:induction false} FilterOfFilter<T>(s: seq<T>, p: T -> bool, q: T -> bool)
    requires forall x :: q(x) == !p(x)
    ensures Filter(Filter(s, p), p) == Filter(s, p)
    ensures Filter(Filter(s, p), q) == []
  {
    if s != [] {
      var init, last := s[..|s| - 1], s[|s| - 1];
      FilterOfFilter(init, p, q);
      FilterAppend(Filter(init, p), if p(last) then [last] else [], p);
      FilterAppend(Filter(init, p), if p(last) then [last] else [], q);
      assert [last][..0] == [];
    }
  }

  /** The last element a filter keeps is the input's last element satisfying the predicate. */
  lemma {:induction false} FilterLast<T>(s: seq<T>, p: T -> bool, j: nat)
    requires j < |s| && p(s[j])
    requires forall i :: j < i < |s| ==> !p(s[i])
    ensures |Filter(s, p)| > 0
    ensures Filter(s, p)[|Filter(s, p)| - 1] == s[j]
  {
    var init := s[..|s| - 1];
    if j < |s| - 1 {
      assert init[j] == s[j];
      forall i | j < i < |init| ensures !p(init[i]) {
        assert init[i] == s[i];
      }
      FilterLast(init, p, j);
    }
  }

  // ---- properties of dedupeCountdowns ----

  /** With no countdown line the input comes back untouched. */
  lemma DedupeWithoutCountdown(lines: seq<string>)
    requires forall i :: 0 <= i < |lines| ==> !IsCountdown(lines[i])
    ensures DedupeCountdowns(lines) == lines
  {
    FilterSplit(lines, IsCountdown, IsOther);
  }

  /** Otherwise: the other lines, unstripped and in order, then the last countdown line. */
  lemma DedupeWithCountdown(lines: seq<string>, j: nat)
    requires j < |lines| && IsCountdown(lines[j])
    requires forall i :: j < i < |lines| ==> !IsCountdown(lines[i])
    ensures DedupeCountdowns(lines) == Filter(lines, IsOther) + [lines[j]]
  {
    FilterLast(lines, IsCountdown, j);
  }

  /** At most one countdown survives, nothing new is invented, and nothing grows. */
  lemma DedupeBounds(lines: seq<string>)
    ensures |Filter(DedupeCountdowns(lines), IsCountdown)| <= 1
    ensures |DedupeCountdowns(lines)| <= |lines|
    ensures forall x :: x in DedupeCountdowns(lines) ==> x in lines
  {
    FilterSplit(lines, IsCountdown, IsOther);
    FilterSplit(lines, IsOther, IsCountdown);
    var cds := Filter(lines, IsCountdown);
    if |cds| > 0 {
      var c := cds[|cds| - 1];
      assert c in cds;
      FilterAppend(Filter(lines, IsOther), [c], IsCountdown);
      FilterOfFilter(lines, IsOther, IsCountdown);
      assert [c][..0] == [];
    }
  }

  /** Applying the de-duplication twice is the same as applying it once. */
  lemma DedupeIdempotent(lines: seq<string>)
    ensures DedupeCountdowns(DedupeCountdowns(lines)) == DedupeCountdowns(lines)
  {
    var cds := Filter(lines, IsCountdown);
    if |cds| > 0 {
      var c := cds[|cds| - 1];
      FilterSplit(lines, IsCountdown, IsOther);
      assert c in cds;
      var others := Filter(lines, IsOther);
      var d := others + [c];
      FilterAppend(others, [c], IsCountdown);
      FilterAppend(others, [c], IsOther);
      FilterOfFilter(lines, IsOther, IsCountdown);
      assert [c][..0] == [];
      assert Filter(d, IsCountdown) == [c];
      assert Filter(d, IsOther) == others;
    }
  }
}
