/** What each key of tools/wifi_wpa_cli/edit.c does to the line, position by position. */
module EditorKeys {
  import opened CBuffer
  import opened EditorSpec
  import opened HistorySpec
  import opened Options

  /** The new line has this text in place of the positions from `i` to `j`; all else has stayed. */
  predicate Replaced(line: string, i: nat, j: nat, middle: string, now: string) {
    && i <= j <= |line| && |now| == |line| - (j - i) + |middle|
    && (forall k | 0 <= k < i :: now[k] == line[k])
    && (forall k | 0 <= k < |middle| :: now[i + k] == middle[k])
    && forall k | j <= k < |line| :: now[k - (j - i) + |middle|] == line[k]
  }

  /** Nothing but the line and the cursor has changed. */
  predicate LineOnly(e: Editor, e': Editor) { e' == Editor(e.nav.(line := e'.nav.line), e'.pos) }

  /** A word behind which the cursor stands, with blanks between them or not: as long as it can be. */
  predicate WordBefore(line: string, start: nat, end: nat, pos: nat) {
    && start <= end <= pos <= |line|
    && (forall k | end <= k < pos :: line[k] == ' ') && (end > 0 ==> line[end - 1] != ' ')
    && (forall k | start <= k < end :: line[k] != ' ') && (start > 0 && start < end ==> line[start - 1] == ' ')
    && (start == end ==> start == 0)
  }

  /** The same to the right. */
  predicate WordBehind(line: string, pos: nat, begin: nat, end: nat) {
    && pos <= begin <= end <= |line|
    && (forall k | pos <= k < begin :: line[k] == ' ') && (begin < |line| ==> line[begin] != ' ')
    && (forall k | begin <= k < end :: line[k] != ' ') && (end < |line| ==> begin < end && line[end] == ' ')
  }

  lemma {:induction false} LeftOver(s: string, p: nat, blanks: bool)
    requires p <= |s|
    ensures var q := SkipLeft(s, p, blanks);
            q <= p && (forall k | q <= k < p :: (s[k] == ' ') == blanks) && (q > 0 ==> (s[q - 1] == ' ') != blanks)
  {
    if p > 0 && (s[p - 1] == ' ') == blanks {
      LeftOver(s, p - 1, blanks);
    }
  }

  lemma {:induction false} RightOver(s: string, p: nat, blanks: bool)
    requires p <= |s|
    ensures var q := SkipRight(s, p, blanks);
            p <= q <= |s| && (forall k | p <= k < q :: (s[k] == ' ') == blanks) && (q < |s| ==> (s[q] == ' ') != blanks)
    decreases |s| - p
  {
    if p < |s| && (s[p] == ' ') == blanks {
      RightOver(s, p + 1, blanks);
    }
  }

  lemma FindsWordBefore(line: string, pos: nat)
    requires pos <= |line|
    ensures var end := SkipLeft(line, pos, true); WordBefore(line, SkipLeft(line, end, false), end, pos)
  {
    LeftOver(line, pos, true);
    LeftOver(line, SkipLeft(line, pos, true), false);
  }

  lemma FindsWordBehind(line: string, pos: nat)
    requires pos <= |line|
    ensures var begin := SkipRight(line, pos, true); WordBehind(line, pos, begin, SkipRight(line, begin, false))
  {
    RightOver(line, pos, true);
    RightOver(line, SkipRight(line, pos, true), false);
  }

  /** Only one place begins the word before the cursor, and only one ends the word behind it. */
  lemma WordsAreOne(line: string, pos: nat, a: nat, b: nat, c: nat, d: nat)
    ensures WordBefore(line, a, b, pos) && WordBefore(line, c, d, pos) ==> a == c && b == d
    ensures WordBehind(line, pos, a, b) && WordBehind(line, pos, c, d) ==> a == c && b == d
  {
  }

  lemma ReplacedBy(line: string, i: nat, j: nat, middle: string)
    requires i <= j <= |line|
    ensures Replaced(line, i, j, middle, line[..i] + middle + line[j..])
    ensures middle == "" ==> line[..i] + line[j..] == line[..i] + middle + line[j..]
  {
    var now := line[..i] + middle + line[j..];
    forall k | j <= k < |line| ensures now[k - (j - i) + |middle|] == line[k] {
      assert now[k - (j - i) + |middle|] == line[j..][k - j];
    }
  }

  /** What the deleting keys delete, and where they leave the cursor. */
  lemma KeysDelete(e: Editor)
    requires e.pos <= |e.nav.line| < CMD_BUF_LEN && Sound(e.nav)
    ensures var e' := Press(e, DeleteLeft);
            LineOnly(e, e') && if e.pos == 0 then e' == e else Replaced(e.nav.line, e.pos - 1, e.pos, "", e'.nav.line) && e'.pos == e.pos - 1
    ensures var e' := Press(e, DeleteCurrent);
            LineOnly(e, e') && e'.pos == e.pos
            && if e.pos == |e.nav.line| then e' == e else Replaced(e.nav.line, e.pos, e.pos + 1, "", e'.nav.line)
    ensures var e' := Press(e, ClearLeft); LineOnly(e, e') && Replaced(e.nav.line, 0, e.pos, "", e'.nav.line) && e'.pos == 0
    ensures var e' := Press(e, ClearRight);
            LineOnly(e, e') && Replaced(e.nav.line, e.pos, |e.nav.line|, "", e'.nav.line) && e'.pos == e.pos
    ensures var e' := Press(e, DeleteWord);
            LineOnly(e, e') && Replaced(e.nav.line, e'.pos, e.pos, "", e'.nav.line)
            && exists end :: WordBefore(e.nav.line, e'.pos, end, e.pos)
  {
    var line, pos := e.nav.line, e.pos;
    hide Replaced;
    if pos > 0 { ReplacedBy(line, pos - 1, pos, ""); }
    if pos < |line| { ReplacedBy(line, pos, pos + 1, ""); }
    FindsWordBefore(line, pos);
    hide WordBefore;
    ReplacedBy(line, SkipLeft(line, SkipLeft(line, pos, true), false), pos, "");
    ReplacedBy(line, 0, pos, "");
    ReplacedBy(line, pos, |line|, "");
    assert line[..0] + line[pos..] == line[pos..] && line[..pos] + line[|line|..] == line[..pos];
  }

  /** A character goes in at the cursor, unless the buffer is full. */
  lemma KeyInserts(e: Editor, c: char)
    requires e.pos <= |e.nav.line| < CMD_BUF_LEN && Sound(e.nav) && CanPress(e, Insert(c))
    ensures var e' := Press(e, Insert(c));
            if |e.nav.line| == CMD_BUF_LEN - 1 then e' == e
            else LineOnly(e, e') && Replaced(e.nav.line, e.pos, e.pos, [c], e'.nav.line) && e'.pos == e.pos + 1
  {
    ReplacedBy(e.nav.line, e.pos, e.pos, [c]);
    hide Replaced;
  }

  /** Where the moving keys move the cursor; the line stays. */
  lemma KeysMove(e: Editor)
    requires e.pos <= |e.nav.line| < CMD_BUF_LEN && Sound(e.nav)
    ensures Press(e, MoveStart) == e.(pos := 0) && Press(e, MoveEnd) == e.(pos := |e.nav.line|)
    ensures Press(e, MoveLeft) == e.(pos := if e.pos == 0 then 0 else e.pos - 1)
    ensures Press(e, MoveRight) == e.(pos := if e.pos == |e.nav.line| then e.pos else e.pos + 1)
    ensures var e' := Press(e, MoveWordLeft); e' == e.(pos := e'.pos) && exists end :: WordBefore(e.nav.line, e'.pos, end, e.pos)
    ensures var e' := Press(e, MoveWordRight); e' == e.(pos := e'.pos) && exists begin :: WordBehind(e.nav.line, e.pos, begin, e'.pos)
  {
    FindsWordBefore(e.nav.line, e.pos);
    FindsWordBehind(e.nav.line, e.pos);
    hide WordBefore, WordBehind;
  }

  /** Enter puts the line into the history and begins a new one; an empty line only drops what was set aside. */
  lemma KeyEnters(e: Editor)
    requires e.pos <= |e.nav.line| < CMD_BUF_LEN && Sound(e.nav)
    ensures var e' := Press(e, Enter);
            && e'.nav.saved == None && e'.nav.line == ""
            && if e.nav.line == "" then e'.nav.list == e.nav.list && e'.nav.curr == e.nav.curr && e'.pos == e.pos
               else e'.nav.list != [] && e'.nav.list[0] == e.nav.line && e'.nav.curr == Some(0) && e'.pos == 0
  {
  }

  /** What completion puts in the place of the word before the cursor: as much of what all candidates that fit
      have in common as the buffer has room for, and a blank behind the only one if there is room for it. */
  lemma KeyCompletes(e: Editor, words: seq<string>)
    requires e.pos <= |e.nav.line| < CMD_BUF_LEN && Sound(e.nav) && CanPress(e, Complete(words))
    ensures var e', start := Press(e, Complete(words)), SkipLeft(e.nav.line, e.pos, false);
            var fit, had := Fitting(words, e.nav.line[start..e.pos]), e.pos - start;
            && (forall k | start <= k < e.pos :: e.nav.line[k] != ' ') && (start > 0 ==> e.nav.line[start - 1] == ' ')
            && if fit == [] || (|fit| > 1 && Common(fit, |fit|) <= had) then e' == e
               else
                 var common, room := Common(fit, |fit|), CMD_BUF_LEN - 1 - |e.nav.line|;
                 var taken := if common - had <= room then common else had + room;
                 var blank := if |fit| == 1 && taken - had < room then " " else "";
                 && LineOnly(e, e') && e'.pos == start + taken + |blank|
                 && taken <= |fit[0]| && Replaced(e.nav.line, start, e.pos, fit[0][..taken] + blank, e'.nav.line)
  {
    hide Press, CanPress, Replaced, SkipLeft, Common, Matches, Fitting, Word, Sound;
    var start := SkipLeft(e.nav.line, e.pos, false);
    LeftOver(e.nav.line, e.pos, false);
    var fit := Fitting(words, e.nav.line[start..e.pos]);
    CompleteIs(e, words, start, fit);
    FitsLonger(e.nav.line[start..e.pos], words);
    if fit != [] && !(|fit| > 1 && Common(fit, |fit|) <= e.pos - start) {
      var word := Word(fit[0], e.pos - start, Common(fit, |fit|), |fit| == 1, CMD_BUF_LEN - 1 - |e.nav.line|);
      WordIs(fit[0], e.pos - start, Common(fit, |fit|), |fit| == 1, CMD_BUF_LEN - 1 - |e.nav.line|);
      ReplacedBy(e.nav.line, start, e.pos, word);
    }
  }

  lemma CompleteIs(e: Editor, words: seq<string>, start: nat, fit: seq<string>)
    requires e.pos <= |e.nav.line| < CMD_BUF_LEN && Sound(e.nav) && CanPress(e, Complete(words))
    requires start == SkipLeft(e.nav.line, e.pos, false) && fit == Fitting(words, e.nav.line[start..e.pos])
    ensures if fit == [] || (|fit| > 1 && Common(fit, |fit|) <= e.pos - start) then Press(e, Complete(words)) == e
            else
              && e.pos - start <= Common(fit, |fit|) <= |fit[0]|
              && var word := Word(fit[0], e.pos - start, Common(fit, |fit|), |fit| == 1, CMD_BUF_LEN - 1 - |e.nav.line|);
              Press(e, Complete(words)) == WithLine(e, e.nav.line[..start] + word + e.nav.line[e.pos..], start + |word|)
  {
    hide Word, Common, Fitting, Matches, SkipLeft;
    FitsLonger(e.nav.line[start..e.pos], words);
  }

  lemma FitsLonger(word: string, words: seq<string>)
    ensures var fit := Fitting(words, word); fit != [] ==> |word| <= |fit[0]| && (|fit| == 1 ==> Common(fit, 1) == |fit[0]|)
  {
  }

  lemma WordIs(best: string, had: nat, common: nat, single: bool, room: nat)
    requires had <= common <= |best|
    ensures var taken := if common - had <= room then common else had + room;
            taken <= |best| && Word(best, had, common, single, room) == best[..taken] + if single && taken - had < room then " " else ""
  {
  }

  // ----- Which candidates fit -----

  const UPPER: string := "ABCDEFGHIJKLMNOPQRSTUVWXYZ"
  const LOWER: string := "abcdefghijklmnopqrstuvwxyz"

  /** Equal, or the two cases of one letter. */
  predicate SameLetter(a: char, b: char) {
    a == b || exists i | 0 <= i < 26 :: (a == UPPER[i] && b == LOWER[i]) || (a == LOWER[i] && b == UPPER[i])
  }

  lemma LowerLetter(i: nat)
    requires i < 26
    ensures UPPER[i] as int == 65 + i && LOWER[i] as int == 97 + i
  {
  }

  lemma LowerIs(a: char, b: char)
    ensures Lower(a) == Lower(b) <==> SameLetter(a, b)
  {
    forall i | 0 <= i < 26 ensures UPPER[i] as int == 65 + i && LOWER[i] as int == 97 + i {
      LowerLetter(i);
    }
    if Lower(a) == Lower(b) && a != b {
      var i := if a < b then a as int - 65 else b as int - 65;
      assert 0 <= i < 26 && (if a < b then a == UPPER[i] && b == LOWER[i] else a == LOWER[i] && b == UPPER[i]);
    }
  }

  /** It begins with the word, but for the case of letters. */
  predicate Begins(s: string, word: string) {
    |word| <= |s| && forall k | 0 <= k < |word| :: SameLetter(s[k], word[k])
  }

  /** Which candidates fit: those that begin with the word, in their order. */
  lemma {:induction false} FittingIs(words: seq<string>, word: string) returns (at: seq<nat>)
    ensures |at| == |Fitting(words, word)|
    ensures forall k | 0 <= k < |at| :: at[k] < |words| && Fitting(words, word)[k] == words[at[k]]
    ensures forall j, k | 0 <= j < k < |at| :: at[j] < at[k]
    ensures forall i | 0 <= i < |words| :: i in at <==> Begins(words[i], word)
  {
    hide Matches, Begins;
    if words == [] {
      at := [];
    } else {
      var n := |words| - 1;
      var front := words[..n];
      var more := FittingIs(front, word);
      MatchesIs(words[n], word);
      at := if Matches(words[n], word) then more + [n] else more;
      assert n !in more;
      assert forall i | 0 <= i < n :: front[i] == words[i] && (i in at <==> i in more);
    }
  }

  lemma MatchesIs(s: string, word: string)
    ensures Matches(s, word) <==> Begins(s, word)
  {
    forall a: char, b: char ensures Lower(a) == Lower(b) <==> SameLetter(a, b) {
      LowerIs(a, b);
    }
    hide Lower, SameLetter;
  }

  /** A search puts the line it finds in the place of the one being edited, and the cursor behind it. */
  lemma KeySearches(e: Editor, found: nat)
    requires e.pos <= |e.nav.line| < CMD_BUF_LEN && Sound(e.nav) && found < |e.nav.list|
    ensures var e' := Press(e, Search(found));
            LineOnly(e, e') && e'.nav.line == e.nav.list[found] && e'.pos == |e'.nav.line|
  {
  }
}
