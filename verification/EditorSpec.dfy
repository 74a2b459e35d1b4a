/** What the keys of tools/wifi_wpa_cli/edit.c do to the edited line and the history. */
module EditorSpec {
  import opened CBuffer
  import opened HistorySpec
  import opened Options

  const CMD_BUF_LEN: nat := 4096

  /** The history and the edited line, with the cursor in it. */
  datatype Editor = Editor(nav: Nav, pos: nat)

  /** The commands behind the keys; what search finds and the words that the completion callback offers are inputs. */
  datatype Key =
    | Insert(c: char)
    | DeleteLeft | DeleteCurrent | DeleteWord | ClearLeft | ClearRight
    | MoveStart | MoveEnd | MoveLeft | MoveRight | MoveWordLeft | MoveWordRight
    | Previous | Following | Enter
    | Search(found: nat)
    | Complete(words: seq<string>)

  /** Backwards over blanks, or over anything else. */
  function SkipLeft(s: string, p: nat, blanks: bool): (q: nat)
    requires p <= |s|
    ensures q <= p
  {
    if p > 0 && (s[p - 1] == ' ') == blanks then SkipLeft(s, p - 1, blanks) else p
  }

  function SkipRight(s: string, p: nat, blanks: bool): (q: nat)
    requires p <= |s|
    ensures p <= q <= |s|
    decreases |s| - p
  {
    if p < |s| && (s[p] == ' ') == blanks then SkipRight(s, p + 1, blanks) else p
  }

  /** Every text is a C string that fits the buffer. */
  ghost predicate Clean(e: Editor) {
    && Sound(e.nav) && e.pos <= |e.nav.line| < CMD_BUF_LEN && NulFree(e.nav.line)
    && (forall i | 0 <= i < |e.nav.list| :: |e.nav.list[i]| < CMD_BUF_LEN && NulFree(e.nav.list[i]))
    && (e.nav.saved.Some? ==> |e.nav.saved.value| < CMD_BUF_LEN && NulFree(e.nav.saved.value))
  }

  /** What the terminal and the callbacks can send. */
  predicate CanPress(e: Editor, key: Key)
    requires e.pos <= |e.nav.line|
  {
    match key
    case Insert(c) => 32 <= c as int <= 255
    case Search(found) => found < |e.nav.list|
    case Complete(words) => forall i | 0 <= i < |words| :: NulFree(words[i])
    case _ => true
  }

  function WithLine(e: Editor, line: string, pos: nat): Editor { Editor(e.nav.(line := line), pos) }

  function WithNav(nav: Nav): Editor { Editor(nav, |nav.line|) }

  function Press(e: Editor, key: Key): Editor
    requires e.pos <= |e.nav.line| < CMD_BUF_LEN && Sound(e.nav) && CanPress(e, key)
  {
    var line, pos := e.nav.line, e.pos;
    match key
    case Insert(c) => if |line| >= CMD_BUF_LEN - 1 then e else WithLine(e, line[..pos] + [c] + line[pos..], pos + 1)
    case DeleteLeft => if pos == 0 then e else WithLine(e, line[..pos - 1] + line[pos..], pos - 1)
    case DeleteCurrent => if pos == |line| then e else WithLine(e, line[..pos] + line[pos + 1..], pos)
    case DeleteWord =>
      var start := SkipLeft(line, SkipLeft(line, pos, true), false);
      WithLine(e, line[..start] + line[pos..], start)
    case ClearLeft => WithLine(e, line[pos..], 0)
    case ClearRight => WithLine(e, line[..pos], pos)
    case MoveStart => e.(pos := 0)
    case MoveEnd => e.(pos := |line|)
    case MoveLeft => e.(pos := if pos > 0 then pos - 1 else 0)
    case MoveRight => e.(pos := if pos < |line| then pos + 1 else pos)
    case MoveWordLeft => e.(pos := SkipLeft(line, SkipLeft(line, pos, true), false))
    case MoveWordRight => e.(pos := SkipRight(line, SkipRight(line, pos, true), false))
    case Previous => if Prev(e.nav) == e.nav then e else WithNav(Prev(e.nav))
    case Following => if Next(e.nav) == e.nav then e else WithNav(Next(e.nav))
    case Enter =>
      if line == "" then Editor(e.nav.(saved := None), pos)
      else Editor(Nav(Add(e.nav.list, line), Some(0), "", None), 0)
    case Search(found) => WithNav(e.nav.(line := e.nav.list[found]))
    case Complete(words) =>
      var start := SkipLeft(line, pos, false);
      var fit := Fitting(words, line[start..pos]);
      if fit == [] || (|fit| > 1 && Common(fit, |fit|) <= pos - start) then e
      else
        var word := Word(fit[0], pos - start, Common(fit, |fit|), |fit| == 1, CMD_BUF_LEN - 1 - |line|);
        WithLine(e, line[..start] + word + line[pos..], start + |word|)
  }

  // ----- Completion -----

  function Lower(c: char): char {
    if 'A' <= c <= 'Z' then (c as int + 32) as char else c
  }

  /** strncasecmp with the length of the word. */
  predicate Matches(s: string, word: string) {
    |word| <= |s| && forall i | 0 <= i < |word| :: Lower(s[i]) == Lower(word[i])
  }

  /** filter_strings: what matches, in the same order. */
  function Fitting(words: seq<string>, word: string): (fit: seq<string>)
    ensures forall i | 0 <= i < |fit| :: fit[i] in words && Matches(fit[i], word)
  {
    if words == [] then []
    else
      var last := words[|words| - 1];
      Fitting(words[..|words| - 1], word) + if Matches(last, word) then [last] else []
  }

  /** common_len. */
  function CommonLen(a: string, b: string): (n: nat)
    ensures n <= |a| && n <= |b|
  {
    if a != "" && b != "" && a[0] == b[0] then 1 + CommonLen(a[1..], b[1..]) else 0
  }

  /** max_common_length of the first n words. */
  function Common(words: seq<string>, n: nat): (len: nat)
    requires 0 < n <= |words|
    ensures len <= |words[0]| && (n == 1 ==> len == |words[0]|)
  {
    if n == 1 then |words[0]|
    else
      var len, same := Common(words, n - 1), CommonLen(words[0], words[n - 1]);
      if same < len then same else len
  }

  lemma {:induction false} CommonLenIsLongest(a: string, b: string, m: nat)
    ensures m <= CommonLen(a, b) <==> m <= |a| && m <= |b| && a[..m] == b[..m]
  {
    if m > 0 && a != "" && b != "" {
      CommonLenIsLongest(a[1..], b[1..], m - 1);
      if m <= |a| && m <= |b| {
        assert a[..m] == [a[0]] + a[1..][..m - 1] && b[..m] == [b[0]] + b[1..][..m - 1];
        assert a[..m] == b[..m] ==> a[..m][0] == b[..m][0] && a[..m][1..] == b[..m][1..];
      }
    }
  }

  /** It is the length of the longest text that all of the words begin with. */
  lemma {:induction false} CommonIsLongest(words: seq<string>, n: nat, m: nat)
    requires 0 < n <= |words| && m <= |words[0]|
    ensures m <= Common(words, n) <==> forall i | 0 <= i < n :: m <= |words[i]| && words[i][..m] == words[0][..m]
    decreases n
  {
    if n > 1 {
      CommonIsLongest(words, n - 1, m);
      CommonLenIsLongest(words[0], words[n - 1], m);
    }
  }

  /** What stands in the place of the word in front of the cursor after a completion: as much of what the
      candidates have in common as there is room for, and a blank behind a single one. */
  function Word(best: string, plen: nat, common: nat, single: bool, room: nat): (word: string)
    requires plen <= common <= |best|
    ensures plen <= |word| <= plen + room && (NulFree(best) ==> NulFree(word))
  {
    var len := if room < common - plen then room else common - plen;
    best[..plen + len] + if single && len < room then " " else ""
  }

  const START := Editor(Nav([], None, "", None), 0)

  lemma AddKeeps(h: seq<string>, s: string)
    requires |s| < CMD_BUF_LEN && NulFree(s) && forall i | 0 <= i < |h| :: |h[i]| < CMD_BUF_LEN && NulFree(h[i])
    ensures var r := Add(h, s); (s != "" ==> r != []) && forall i | 0 <= i < |r| :: |r[i]| < CMD_BUF_LEN && NulFree(r[i])
  {
    hide NulFree;
  }

  predicate Edits(key: Key) { key.Insert? || key.DeleteLeft? || key.DeleteCurrent? || key.DeleteWord? || key.Complete? }

  lemma EditKeeps(e: Editor, key: Key)
    requires Clean(e) && CanPress(e, key) && Edits(key)
    ensures Clean(Press(e, key))
  {
    var line, pos := e.nav.line, e.pos;
    match key
    case Insert(c) => Slices(line, pos, pos, [c]);
    case DeleteLeft => if pos > 0 { Slices(line, pos - 1, pos, ""); }
    case DeleteCurrent => if pos < |line| { Slices(line, pos, pos + 1, ""); }
    case DeleteWord => Slices(line, SkipLeft(line, SkipLeft(line, pos, true), false), pos, "");
    case Complete(words) =>
      var start := SkipLeft(line, pos, false);
      var fit := Fitting(words, line[start..pos]);
      if fit != [] && (|fit| == 1 || Common(fit, |fit|) > pos - start) {
        assert fit[0] in words;
        hide Word, Fitting, Common;
        Slices(line, start, pos, Word(fit[0], pos - start, Common(fit, |fit|), |fit| == 1, CMD_BUF_LEN - 1 - |line|));
      }
  }

  lemma Slices(line: string, i: nat, j: nat, middle: string)
    requires i <= j <= |line| && NulFree(line) && NulFree(middle)
    ensures NulFree(line[..i] + middle + line[j..]) && line[..i] + "" + line[j..] == line[..i] + line[j..]
  {
  }

  /** No key puts a NUL into the line or overfills the buffer. */
  lemma PressKeeps(e: Editor, key: Key)
    requires Clean(e) && CanPress(e, key)
    ensures Clean(Press(e, key))
  {
    if Edits(key) {
      EditKeeps(e, key);
    } else if key.Enter? {
      AddKeeps(e.nav.list, e.nav.line);
    } else if key.Following? && e.nav.saved.Some? {
      BeforeNulWhole(e.nav.saved.value);
    }
  }

  ghost predicate CanPressAll(e: Editor, keys: seq<Key>)
    requires Clean(e)
    decreases |keys|
  {
    keys == [] || (CanPress(e, keys[0]) && (PressKeeps(e, keys[0]); CanPressAll(Press(e, keys[0]), keys[1..])))
  }

  ghost function PressAll(e: Editor, keys: seq<Key>): (r: Editor)
    requires Clean(e) && CanPressAll(e, keys)
    ensures Clean(r)
    decreases |keys|
  {
    if keys == [] then e else PressKeeps(e, keys[0]); PressAll(Press(e, keys[0]), keys[1..])
  }

  /** The same key k times. */
  ghost function Times(e: Editor, key: Key, k: nat): (r: Editor)
    requires Clean(e) && (key.Previous? || key.Following?)
    ensures Clean(r)
  {
    if k == 0 then e else PressKeeps(Times(e, key, k - 1), key); Press(Times(e, key, k - 1), key)
  }

  lemma {:induction false} PreviousTimes(e: Editor, k: nat)
    requires Clean(e)
    ensures Times(e, Previous, k).nav == PrevTimes(e.nav, k)
  {
    if k > 0 {
      PreviousTimes(e, k - 1);
    }
  }

  lemma {:induction false} NextTimesLast(n: Nav, k: nat)
    requires Sound(n) && k > 0
    ensures NextTimes(n, k) == Next(NextTimes(n, k - 1))
    decreases k
  {
    if k > 1 {
      NextTimesLast(Next(n), k - 1);
    }
  }

  lemma {:induction false} FollowingTimes(e: Editor, k: nat)
    requires Clean(e)
    ensures Times(e, Following, k).nav == NextTimes(e.nav, k)
  {
    if k > 0 {
      FollowingTimes(e, k - 1);
      NextTimesLast(e.nav, k);
    }
  }

  /** After any keys at all and from any clean start, on the newest entry with no line set aside, k steps back
      and k steps forward restore the line being edited and everything else of the history. */
  lemma StepsRestore(start: Editor, keys: seq<Key>, k: nat)
    requires Clean(start) && CanPressAll(start, keys)
    ensures var e := PressAll(start, keys);
            e.nav.curr == Some(0) && e.nav.saved == None ==> Times(Times(e, Previous, k), Following, k).nav == e.nav
  {
    var e := PressAll(start, keys);
    if e.nav.curr == Some(0) && e.nav.saved == None {
      PreviousTimes(e, k);
      FollowingTimes(Times(e, Previous, k), k);
      BackAndForth(e.nav, k);
      BeforeNulWhole(e.nav.line);
    }
  }

  // ----- The history file -----

  /** How much of the file one fgets takes. */
  function Taken(s: string, room: nat): (n: nat)
    ensures n <= |s| && n <= room && (s != "" && room > 0 ==> n > 0)
    decreases room
  {
    if s == "" || room == 0 then 0 else if s[0] == '\n' then 1 else 1 + Taken(s[1..], room - 1)
  }

  /** The text up to a terminator or the end of a line. */
  function UpToEnd(s: string): (r: string)
    ensures r <= s && NulFree(r)
  {
    if s == "" || s[0] == '\0' || s[0] == '\r' || s[0] == '\n' then "" else [s[0]] + UpToEnd(s[1..])
  }

  /** What history_read adds to the history, in this order. */
  function FileLines(file: string): (lines: seq<string>)
    ensures forall i | 0 <= i < |lines| :: |lines[i]| < CMD_BUF_LEN && NulFree(lines[i])
    decreases |file|
  {
    if file == "" then []
    else
      var n := Taken(file, CMD_BUF_LEN - 1);
      [UpToEnd(file[..n])] + FileLines(file[n..])
  }

  function AddLine(e: Editor, line: string): Editor {
    e.(nav := e.nav.(list := Add(e.nav.list, line), curr := if line == "" then e.nav.curr else Some(0)))
  }

  lemma AddLineKeeps(e: Editor, line: string)
    requires Clean(e) && |line| < CMD_BUF_LEN && NulFree(line)
    ensures Clean(AddLine(e, line))
  {
    AddKeeps(e.nav.list, line);
  }

  ghost function AddLines(e: Editor, lines: seq<string>): (r: Editor)
    requires Clean(e) && forall i | 0 <= i < |lines| :: |lines[i]| < CMD_BUF_LEN && NulFree(lines[i])
    ensures Clean(r)
    decreases |lines|
  {
    if lines == [] then e else AddLineKeeps(e, lines[0]); AddLines(AddLine(e, lines[0]), lines[1..])
  }

  lemma FirstLine(e: Editor, file: string)
    requires Clean(e) && file != ""
    ensures var n := Taken(file, CMD_BUF_LEN - 1);
            Clean(AddLine(e, UpToEnd(file[..n])))
            && AddLines(e, FileLines(file)) == AddLines(AddLine(e, UpToEnd(file[..n])), FileLines(file[n..]))
  {
    var n := Taken(file, CMD_BUF_LEN - 1);
    AddLineKeeps(e, UpToEnd(file[..n]));
    assert FileLines(file)[1..] == FileLines(file[n..]);
  }

  lemma NoLine(e: Editor)
    requires Clean(e)
    ensures AddLines(e, FileLines("")) == e
  {
  }

  /** The editor that edit_init sets up from a history file. */
  ghost function Loaded(file: string): (e: Editor)
    ensures Clean(e)
  {
    AddLines(START, FileLines(file))
  }

  lemma {:induction false} AddLinesNav(e: Editor, lines: seq<string>)
    requires Clean(e) && forall i | 0 <= i < |lines| :: |lines[i]| < CMD_BUF_LEN && NulFree(lines[i])
    ensures var r := AddLines(e, lines);
            && r.nav.list == AddAll(e.nav.list, lines) && r.nav.line == e.nav.line && r.nav.saved == e.nav.saved && r.pos == e.pos
            && (r.nav.curr == e.nav.curr || r.nav.curr == Some(0))
    decreases |lines|
  {
    if lines != [] {
      AddLineKeeps(e, lines[0]);
      AddLinesNav(AddLine(e, lines[0]), lines[1..]);
      AddAllFirst(e.nav.list, lines);
    }
  }

  lemma {:induction false} AddAllFirst(h: seq<string>, log: seq<string>)
    requires log != []
    ensures AddAll(h, log) == AddAll(Add(h, log[0]), log[1..])
    decreases |log|
  {
    if |log| > 1 {
      var front := log[..|log| - 1];
      AddAllFirst(h, front);
      assert front[1..] == log[1..][..|log| - 2];
    } else {
      assert log[..0] == [];
    }
  }

  /** What one fgets takes: the line that history_read keeps of it, and what it drops. */
  datatype FilePiece = FilePiece(line: string, dropped: string)

  predicate EndOfLine(c: char) { c == '\0' || c == '\r' || c == '\n' }

  /** The line runs up to the first terminator or line end. The piece ends in the only '\n' it has, or fills the
      buffer, or is the last of the file. */
  predicate IsPiece(p: FilePiece, last: bool) {
    var text := p.line + p.dropped;
    && (forall i | 0 <= i < |p.line| :: !EndOfLine(p.line[i])) && (p.dropped != "" ==> EndOfLine(p.dropped[0]))
    && 0 < |text| < CMD_BUF_LEN
    && (forall i | 0 <= i < |text| - 1 :: text[i] != '\n')
    && (text[|text| - 1] == '\n' || |text| == CMD_BUF_LEN - 1 || last)
  }

  predicate ArePieces(ps: seq<FilePiece>) { forall i | 0 <= i < |ps| :: IsPiece(ps[i], i == |ps| - 1) }

  function FileOf(ps: seq<FilePiece>): string {
    if ps == [] then "" else ps[0].line + ps[0].dropped + FileOf(ps[1..])
  }

  function LinesOf(ps: seq<FilePiece>): seq<string> {
    if ps == [] then [] else [ps[0].line] + LinesOf(ps[1..])
  }

  /** A file made of such pieces is read as their lines. */
  lemma {:induction false} LinesRead(ps: seq<FilePiece>)
    requires ArePieces(ps)
    ensures FileLines(FileOf(ps)) == LinesOf(ps)
  {
    if ps != [] {
      var p, rest := ps[0], FileOf(ps[1..]);
      assert forall i | 0 <= i < |ps[1..]| :: ps[1..][i] == ps[i + 1];
      LinesRead(ps[1..]);
      PieceTaken(p.line + p.dropped, rest, CMD_BUF_LEN - 1);
      LineKept(p.line, p.dropped);
      assert (p.line + p.dropped + rest)[..|p.line + p.dropped|] == p.line + p.dropped;
      assert (p.line + p.dropped + rest)[|p.line + p.dropped|..] == rest;
    }
  }

  lemma {:induction false} PieceTaken(text: string, rest: string, room: nat)
    requires 0 < |text| <= room && forall i | 0 <= i < |text| - 1 :: text[i] != '\n'
    requires text[|text| - 1] == '\n' || |text| == room || rest == ""
    ensures Taken(text + rest, room) == |text|
    decreases room
  {
    assert (text + rest)[1..] == text[1..] + rest;
    if |text| > 1 {
      PieceTaken(text[1..], rest, room - 1);
    }
  }

  lemma {:induction false} LineKept(line: string, dropped: string)
    requires (forall i | 0 <= i < |line| :: !EndOfLine(line[i])) && (dropped != "" ==> EndOfLine(dropped[0]))
    ensures UpToEnd(line + dropped) == line
  {
    if line != "" {
      assert (line + dropped)[1..] == line[1..] + dropped;
      LineKept(line[1..], dropped);
    }
  }

  /** Every file is made of such pieces. */
  lemma {:induction false} FilePieces(file: string) returns (ps: seq<FilePiece>)
    ensures ArePieces(ps) && FileOf(ps) == file
    decreases |file|
  {
    if file == "" {
      ps := [];
    } else {
      var p, rest := FirstPiece(file);
      var more := FilePieces(rest);
      hide IsPiece;
      ps := [p] + more;
      assert ps[1..] == more;
      assert forall i | 0 < i < |ps| :: ps[i] == more[i - 1] && (i == |ps| - 1 <==> i - 1 == |more| - 1);
      assert rest == "" <==> more == [];
    }
  }

  lemma FirstPiece(file: string) returns (p: FilePiece, rest: string)
    requires file != ""
    ensures IsPiece(p, rest == "") && p.line + p.dropped + rest == file && |rest| < |file|
  {
    var n := Taken(file, CMD_BUF_LEN - 1);
    TakenIsPiece(file, CMD_BUF_LEN - 1);
    var text := file[..n];
    LineFits(text);
    var line := UpToEnd(text);
    p, rest := FilePiece(line, text[|line|..]), file[n..];
    assert line == text[..|line|];
    hide Taken, UpToEnd;
    assert p.line + p.dropped == text && text + rest == file;
  }

  lemma {:induction false} TakenIsPiece(s: string, room: nat)
    requires s != "" && room > 0
    ensures var n := Taken(s, room);
            && (forall i | 0 <= i < n - 1 :: s[i] != '\n') && (s[n - 1] == '\n' || n == room || n == |s|)
    decreases room
  {
    if s[0] != '\n' && |s| > 1 && room > 1 {
      TakenIsPiece(s[1..], room - 1);
    }
  }

  lemma {:induction false} LineFits(s: string)
    ensures var line := UpToEnd(s);
            (forall i | 0 <= i < |line| :: !EndOfLine(line[i])) && (|line| < |s| ==> EndOfLine(s[|line|]))
  {
    if s != "" && !EndOfLine(s[0]) {
      LineFits(s[1..]);
    }
  }

  /** A file leaves the hundred most recent of its lines, and the line to edit empty. */
  lemma LoadedIsRecent(file: string)
    ensures Loaded(file).nav.list == Take(Recent(FileLines(file)))
    ensures Loaded(file).nav.line == "" && Loaded(file).nav.saved == None
  {
    AddLinesNav(START, FileLines(file));
    HistoryIsRecent(FileLines(file));
  }
}
