/** The history and line state of tools/wifi_wpa_cli/edit.c, on its list and buffers. */
module History {
  import opened CBuffer
  import opened DlList
  import opened EditorSpec
  import opened HistorySpec
  import opened Options

  class LineEditor {
    const head: Link<string>
    ghost var nodes: seq<Link<string>>
    var historyCurr: Link?<string>
    ghost var at: nat                 // position of historyCurr
    const cmdbuf: array<char>
    var cmdbufPos: nat
    var cmdbufLen: nat
    const currbuf: array<char>
    var currbufValid: bool
    ghost var saved: string           // what was copied to currbuf

    ghost predicate Valid()
      reads this, nodes, cmdbuf, currbuf
    {
      && Listed()
      && cmdbuf != currbuf && cmdbuf.Length == CMD_BUF_LEN == currbuf.Length
      && cmdbufPos <= cmdbufLen < CMD_BUF_LEN && NulFree(cmdbuf[..cmdbufLen])
      && (currbufValid ==> |saved| < CMD_BUF_LEN && NulFree(saved) && Written(currbuf, saved + ['\0']))
    }

    /** The list, the selected entry in it, and C strings that fit the buffer. */
    ghost predicate Listed()
      reads this, nodes
    {
      && Ring(nodes) && nodes[0] == head
      && (historyCurr != null ==> 0 < at < |nodes| && nodes[at] == historyCurr)
      && forall i | 0 <= i < |nodes| - 1 :: |Values(nodes)[i]| < CMD_BUF_LEN && NulFree(Values(nodes)[i])
    }

    ghost function State(): Nav
      requires Valid()
      reads this, nodes, cmdbuf, currbuf
    {
      Nav(Values(nodes),
          if historyCurr == null then None else Some(at - 1),
          cmdbuf[..cmdbufLen],
          if currbufValid then Some(saved) else None)
    }

    ghost function Edited(): Editor
      requires Valid()
      reads this, nodes, cmdbuf, currbuf
    {
      Editor(State(), cmdbufPos)
    }

    /** edit_init. */
    constructor ()
      ensures Valid() && State() == Nav([], None, "", None) && Edited() == START
      ensures fresh(cmdbuf) && fresh(currbuf) && forall i | 0 <= i < |nodes| :: fresh(nodes[i])
    {
      head := new Link(Head);
      historyCurr, at := null, 0;
      cmdbuf, cmdbufPos, cmdbufLen := new char[CMD_BUF_LEN], 0, 0;
      currbuf, currbufValid, saved := new char[CMD_BUF_LEN], false, "";
      new;
      nodes := Init(head);
    }

    /** The search of history_add: the entry with this line, or the last entry and the number of entries. */
    method FindLine(str: string) returns (h: Link?<string>, last: Link?<string>, count: nat)
      requires Ring(nodes) && nodes[0] == head
      ensures count == IndexOf(Values(nodes), str)
      ensures h == if count < |nodes| - 1 then nodes[count + 1] else null
      ensures h == null ==> last == if count == 0 then null else nodes[count]
    {
      RingEntries(nodes);
      hide Ring, Values, IndexOf;
      DlList.At(nodes, 0);
      if |nodes| > 1 { DlList.At(nodes, 1); }
      var item: Link<string> := head.next;
      count, last := 0, null;
      while item != head
        invariant count < |nodes| && Ring(nodes)
        invariant item == nodes[if count + 1 < |nodes| then count + 1 else 0]
        invariant count + 1 < |nodes| ==> item.data == Entry(Values(nodes)[count]) && item != head
        invariant last == if count == 0 then null else nodes[count]
        invariant forall k | 0 <= k < count :: Values(nodes)[k] != str
        decreases |nodes| - count
      {
        if item.data.value == str {
          FirstAt(Values(nodes), str, count);
          return item, last, count;
        }
        DlList.At(nodes, count + 1);
        last, count := item, count + 1;
        item := item.next;
        if count + 1 < |nodes| { DlList.At(nodes, count + 1); }
      }
      FirstAt(Values(nodes), str, count);
      h := null;
    }

    /** history_add, for a line that is a C string. */
    method HistoryAdd(str: string)
      requires Valid() && |str| < CMD_BUF_LEN && NulFree(str)
      modifies this`nodes, this`historyCurr, this`at, nodes
      ensures forall i | 0 <= i < |nodes| :: nodes[i] in old(nodes) || fresh(nodes[i])
      ensures Valid()
      ensures State() == old(State()).(
                list := HistorySpec.Add(old(State()).list, str),
                curr := if str == "" then old(State()).curr else Some(0))
    {
      if str == "" { return; }
      AddKeeps(Values(nodes), str);
      hide Ring, Values, Written, NulFree, HistorySpec.Add;
      var h, ring := AddLine(str);
      Select(h, ring);
    }

    /** `history_curr = h`, once h is at the front. */
    method Select(h: Link<string>, ghost ring: seq<Link<string>>)
      requires Ring(ring) && |ring| > 1 && ring[0] == head && ring[1] == h
      requires forall i | 0 <= i < |ring| - 1 :: |Values(ring)[i]| < CMD_BUF_LEN && NulFree(Values(ring)[i])
      requires cmdbuf != currbuf && cmdbuf.Length == CMD_BUF_LEN == currbuf.Length && cmdbufPos <= cmdbufLen < CMD_BUF_LEN
      requires NulFree(cmdbuf[..cmdbufLen])
      requires currbufValid ==> |saved| < CMD_BUF_LEN && NulFree(saved) && Written(currbuf, saved + ['\0'])
      modifies this`nodes, this`historyCurr, this`at
      ensures Valid() && nodes == ring && historyCurr == h && at == 1
    {
      hide Ring, Values, Written, NulFree;
      nodes, historyCurr, at := ring, h, 1;
    }

    /** Its list surgery. */
    method AddLine(str: string) returns (h: Link<string>, ghost ring: seq<Link<string>>)
      requires Ring(nodes) && nodes[0] == head && str != ""
      modifies nodes
      ensures Ring(ring) && |ring| > 1 && ring[0] == head && ring[1] == h
      ensures forall i | 0 <= i < |ring| :: ring[i] in nodes || fresh(ring[i])
      ensures Values(ring) == HistorySpec.Add(Values(nodes), str)
    {
      var found, last, count := FindLine(str);
      if found != null {
        h := found;
        ring := MoveToFront(h, count);
      } else {
        h, ring := PushFront(str, last, count);
      }
    }

    /** The line is there already. */
    method MoveToFront(h: Link<string>, ghost i: nat) returns (ghost ring: seq<Link<string>>)
      requires Ring(nodes) && nodes[0] == head && i + 1 < |nodes| && nodes[i + 1] == h
      requires i == IndexOf(Values(nodes), h.data.value) && h.data.value != ""
      modifies nodes
      ensures Ring(ring) && |ring| > 1 && ring[0] == head && ring[1] == h
      ensures forall i | 0 <= i < |ring| :: ring[i] in nodes || fresh(ring[i])
      ensures Values(ring) == HistorySpec.Add(Values(nodes), h.data.value)
    {
      Moved(Values(nodes), h.data.value, i);
      WithValue(nodes, i + 1);
      hide Ring, Values, IndexOf, HistorySpec.Add;
      ghost var was := Values(nodes);
      ghost var others := Del(h, nodes, i + 1);
      assert Values(others) == was[..i] + was[i + 1..] && others[0] == head;
      StillThere(nodes, others, i + 1);
      ring := ToFront(h, others);
    }

    /** The line is new; the oldest one goes if the list is full. */
    method PushFront(str: string, last: Link?<string>, count: nat) returns (h: Link<string>, ghost ring: seq<Link<string>>)
      requires Ring(nodes) && nodes[0] == head && count == |nodes| - 1 == IndexOf(Values(nodes), str) && str != ""
      requires last == if count == 0 then null else nodes[count]
      modifies nodes
      ensures Ring(ring) && |ring| > 1 && ring[0] == head && ring[1] == h
      ensures forall i | 0 <= i < |ring| :: ring[i] in nodes || fresh(ring[i])
      ensures Values(ring) == HistorySpec.Add(Values(nodes), str)
    {
      Pushed(Values(nodes), str);
      ring := nodes;
      if count >= HISTORY_MAX && last != null {
        ring := Del(last, nodes, count);
      }
      h := new Link(Entry(str));
      ring := ToFront(h, ring);
    }

    /** dl_list_add to the head. */
    method ToFront(h: Link<string>, ghost ring: seq<Link<string>>) returns (ghost ring': seq<Link<string>>)
      requires Ring(ring) && ring[0] == head && h !in ring && h.data.Entry?
      modifies ring, h
      ensures Ring(ring') && |ring'| > 1 && ring'[0] == head && ring'[1] == h
      ensures forall i | 0 <= i < |ring'| :: ring'[i] == h || ring'[i] in ring
      ensures Values(ring') == [h.data.value] + Values(ring)
    {
      ring' := DlList.Add(head, h, ring, 0);
    }

    /** history_use. */
    method HistoryUse()
      requires Valid() && historyCurr != null
      modifies this`cmdbufPos, this`cmdbufLen, cmdbuf
      ensures Valid() && State() == old(State()).(line := Values(nodes)[at - 1]) && cmdbufPos == cmdbufLen
    {
      DlList.At(nodes, at);
      Load(historyCurr.data.value);
    }

    /** Copying a line into the edit buffer, with the cursor after it. */
    method Load(line: string)
      requires Valid() && |line| < CMD_BUF_LEN && NulFree(line)
      modifies this`cmdbufPos, this`cmdbufLen, cmdbuf
      ensures Valid() && State() == old(State()).(line := line) && cmdbufPos == cmdbufLen
    {
      ghost var out;
      var p;
      p, out := CopyText(cmdbuf, 0, line, "");
      cmdbufPos, cmdbufLen := |line|, |line|;
      assert cmdbuf[..cmdbufLen] == out == line;
    }

    /** history_prev. */
    method HistoryPrev()
      requires Valid()
      modifies this, cmdbuf, currbuf
      ensures Valid() && State() == Prev(old(State()))
      ensures cmdbufPos == if State() == old(State()) then old(cmdbufPos) else cmdbufLen
      ensures nodes == old(nodes)
    {
      if historyCurr == null { return; }
      Neighbours();
      hide Ring, Values, Written, NulFree;
      if historyCurr == head.next && !currbufValid {
        SaveLine();
        HistoryUse();
        return;
      }
      if historyCurr == head.prev { return; }
      historyCurr, at := historyCurr.next, at + 1;
      HistoryUse();
    }

    /** Where the links of the head and of the selected entry lead. */
    lemma Neighbours()
      requires Valid() && historyCurr != null
      ensures |Values(nodes)| == |nodes| - 1
      ensures historyCurr == head.next <==> at == 1
      ensures historyCurr == head.prev <==> at == |nodes| - 1
      ensures at + 1 < |nodes| ==> historyCurr.next == nodes[at + 1]
      ensures historyCurr.prev == nodes[at - 1]
    {
      DlList.At(nodes, 0);
      DlList.At(nodes, at);
    }

    /** Setting the edited line aside, terminator included. */
    method SaveLine()
      requires Valid()
      modifies this`currbufValid, this`saved, cmdbuf, currbuf
      ensures Valid() && State() == old(State()).(saved := Some(old(State()).line))
    {
      ghost var line := cmdbuf[..cmdbufLen];
      cmdbuf[cmdbufLen] := '\0';
      for i := 0 to cmdbufLen + 1
        invariant forall k | 0 <= k < i :: currbuf[k] == cmdbuf[k]
        invariant cmdbuf[..cmdbufLen + 1] == line + ['\0']
        invariant Listed() && cmdbufLen == |line|
      {
        currbuf[i] := cmdbuf[i];
      }
      currbufValid, saved := true, line;
      assert cmdbuf[..cmdbufLen] == line;
    }

    /** history_next. */
    method HistoryNext()
      requires Valid()
      modifies this, cmdbuf
      ensures Valid() && State() == Next(old(State()))
      ensures cmdbufPos == if State() == old(State()) then old(cmdbufPos) else cmdbufLen
      ensures nodes == old(nodes)
    {
      if historyCurr != null {
        Neighbours();
      }
      hide Ring, Values, Written, NulFree;
      if historyCurr == null || historyCurr == head.next {
        if currbufValid {
          var line := SavedLine();
          currbufValid := false;
          Load(line);
        }
        return;
      }
      historyCurr, at := historyCurr.prev, at - 1;
      HistoryUse();
    }

    /** history_read, given what the file holds. */
    method HistoryRead(file: string)
      requires Valid()
      modifies this`nodes, this`historyCurr, this`at, nodes
      ensures Valid() && Clean(old(Edited())) && Edited() == AddLines(old(Edited()), FileLines(file))
      ensures forall i | 0 <= i < |nodes| :: nodes[i] in old(nodes) || fresh(nodes[i])
    {
      EditedIsClean();
      var f := file;
      assert Clean(Edited());
      hide Valid, Edited, EditorSpec.AddLine, AddLines, FileLines, Clean;
      while f != ""
        invariant Valid() && Clean(Edited())
        invariant AddLines(Edited(), FileLines(f)) == AddLines(old(Edited()), FileLines(file))
        invariant forall i | 0 <= i < |nodes| :: nodes[i] in old(nodes) || fresh(nodes[i])
        decreases |f|
      {
        FirstLine(Edited(), f);
        f := ReadLine(f);
      }
      NoLine(Edited());
    }

    /** One turn of its loop: a line comes off the file and goes to the history. */
    method ReadLine(file: string) returns (rest: string)
      requires Valid() && Clean(Edited()) && file != ""
      modifies this`nodes, this`historyCurr, this`at, nodes
      ensures |rest| < |file| && rest == file[Taken(file, CMD_BUF_LEN - 1)..]
      ensures Valid() && Edited() == EditorSpec.AddLine(old(Edited()), UpToEnd(file[..Taken(file, CMD_BUF_LEN - 1)]))
      ensures forall i | 0 <= i < |nodes| :: nodes[i] in old(nodes) || fresh(nodes[i])
    {
      hide Ring, Values, Written, NulFree, Listed, Clean, HistorySpec.Add;
      var n := Taken(file, CMD_BUF_LEN - 1);
      var line := StripLine(file[..n]);
      HistoryAdd(line);
      rest := file[n..];
    }

    /** Any keys, one after the other. */
    method PressKeys(keys: seq<Key>)
      requires Valid() && Clean(Edited()) && CanPressAll(Edited(), keys)
      modifies this, nodes, cmdbuf, currbuf
      ensures Valid() && Edited() == PressAll(old(Edited()), keys)
    {
      assert keys[0..] == keys;
      hide Listed, Ring, Values, NulFree, Written, Press, CanPress, Clean;
      for i := 0 to |keys|
        invariant Valid()
        invariant forall k | 0 <= k < |nodes| :: nodes[k] in old(nodes) || fresh(nodes[k])
        invariant Clean(Edited()) && CanPressAll(Edited(), keys[i..])
        invariant PressAll(Edited(), keys[i..]) == PressAll(old(Edited()), keys)
      {
        assert keys[i..][1..] == keys[i + 1..];
        PressKeeps(Edited(), keys[i]);
        PressKey(keys[i]);
      }
    }

    // ----- The line commands -----

    /** memmove over a part of the line, which is gone then; the cursor is where it was. */
    method CutOut(from: nat, to: nat, count: nat)
      requires Valid() && from <= to <= cmdbufLen && cmdbufLen - to <= count <= cmdbufLen - to + 1 && from + count <= CMD_BUF_LEN
      requires to + count <= CMD_BUF_LEN
      modifies this`cmdbufPos, this`cmdbufLen, cmdbuf
      ensures Valid() && Edited() == WithLine(old(Edited()), old(State()).line[..from] + old(State()).line[to..], from)
    {
      hide Ring, Values, Written, NulFree, Listed;
      ghost var line := cmdbuf[..cmdbufLen];
      Slices(line, from, to, "");
      Shift(from, to, count);
      SetLine(cmdbufLen - (to - from), from, line[..from] + line[to..]);
    }

    /** The text behind the hole comes down over it. */
    method Shift(from: nat, to: nat, count: nat)
      requires from <= to <= cmdbufLen <= cmdbuf.Length && cmdbufLen - to <= count && to + count <= cmdbuf.Length
      modifies cmdbuf
      ensures var line := old(cmdbuf[..cmdbufLen]); cmdbuf[..cmdbufLen - (to - from)] == line[..from] + line[to..]
    {
      ghost var was := cmdbuf[..];
      CBuffer.Move(cmdbuf, from, to, count);
      CutText(was, cmdbuf[..], cmdbufLen, from, to, count);
      assert was[..cmdbufLen] == old(cmdbuf[..cmdbufLen]);
    }

    /** The length and the cursor, once the text is in the buffer. */
    method SetLine(len: nat, pos: nat, ghost line: string)
      requires Unlined() && pos <= len < CMD_BUF_LEN && cmdbuf[..len] == line && NulFree(line)
      modifies this`cmdbufPos, this`cmdbufLen
      ensures Valid() && Edited() == Editor(old(Nav(Values(nodes), if historyCurr == null then None else Some(at - 1), line,
                                                    if currbufValid then Some(saved) else None)), pos)
    {
      hide Ring, Values, Written, NulFree;
      cmdbufLen := len;
      cmdbufPos := pos;
    }

    /** Everything that Valid says of anything but the line. */
    ghost predicate Unlined()
      reads this, nodes, currbuf
    {
      && Listed() && cmdbuf != currbuf && cmdbuf.Length == CMD_BUF_LEN == currbuf.Length
      && (currbufValid ==> |saved| < CMD_BUF_LEN && NulFree(saved) && Written(currbuf, saved + ['\0']))
    }

    /** Making room and writing a text where the cursor is, over the characters from `from` on. */
    method PutIn(from: nat, text: string)
      requires Valid() && from <= cmdbufPos && NulFree(text) && |text| >= cmdbufPos - from
      requires cmdbufLen + |text| - (cmdbufPos - from) < CMD_BUF_LEN
      modifies this`cmdbufPos, this`cmdbufLen, cmdbuf
      ensures Valid()
      ensures var line := old(State()).line;
              Edited() == WithLine(old(Edited()), line[..from] + text + line[old(cmdbufPos)..], from + |text|)
    {
      hide Ring, Values, Written, NulFree, Listed;
      ghost var line, was := cmdbuf[..cmdbufLen], cmdbuf[..];
      Slices(line, from, cmdbufPos, text);
      CBuffer.Move(cmdbuf, from + |text|, cmdbufPos, cmdbufLen - cmdbufPos);
      ghost var moved := cmdbuf[..];
      Overwrite(from, text);
      PutText(was, moved, cmdbuf[..], cmdbufLen, from, cmdbufPos, text);
      SetLine(cmdbufLen + |text| - (cmdbufPos - from), from + |text|, line[..from] + text + line[cmdbufPos..]);
    }

    /** `memcpy(cmdbuf + from, text, ...)`. */
    method Overwrite(from: nat, text: string)
      requires from + |text| <= cmdbuf.Length
      modifies cmdbuf
      ensures forall i | 0 <= i < cmdbuf.Length ::
                cmdbuf[i] == if from <= i < from + |text| then text[i - from] else old(cmdbuf[i])
    {
      for i := 0 to |text|
        invariant forall k | 0 <= k < cmdbuf.Length ::
                    cmdbuf[k] == if from <= k < from + i then text[k - from] else old(cmdbuf[k])
      {
        cmdbuf[from + i] := text[i];
      }
    }

    method InsertChar(c: char)
      requires Valid() && 32 <= c as int <= 255
      modifies this`cmdbufPos, this`cmdbufLen, cmdbuf
      ensures Valid() && Edited() == Press(old(Edited()), Insert(c))
    {
      if cmdbufLen >= CMD_BUF_LEN - 1 { return; }
      PutIn(cmdbufPos, [c]);
    }

    method EraseLeft()
      requires Valid()
      modifies this`cmdbufPos, this`cmdbufLen, cmdbuf
      ensures Valid() && Edited() == Press(old(Edited()), DeleteLeft)
    {
      if cmdbufPos == 0 { return; }
      CutOut(cmdbufPos - 1, cmdbufPos, cmdbufLen - cmdbufPos);
    }

    /** One byte more than the rest of the line is moved, which is still inside the buffer. */
    method EraseCurrent()
      requires Valid()
      modifies this`cmdbufPos, this`cmdbufLen, cmdbuf
      ensures Valid() && Edited() == Press(old(Edited()), DeleteCurrent)
    {
      if cmdbufPos == cmdbufLen { return; }
      CutOut(cmdbufPos, cmdbufPos + 1, cmdbufLen - cmdbufPos);
    }

    /** Back from p over blanks, or over anything else. */
    method Back(p: nat, blanks: bool) returns (q: nat)
      requires Valid() && p <= cmdbufLen
      ensures q == SkipLeft(State().line, p, blanks)
    {
      q := p;
      while q > 0 && (cmdbuf[q - 1] == ' ') == blanks
        invariant q <= p && SkipLeft(cmdbuf[..cmdbufLen], q, blanks) == SkipLeft(cmdbuf[..cmdbufLen], p, blanks)
      {
        assert cmdbuf[..cmdbufLen][q - 1] == cmdbuf[q - 1];
        q := q - 1;
      }
      assert q > 0 ==> cmdbuf[..cmdbufLen][q - 1] == cmdbuf[q - 1];
    }

    method Forward(p: nat, blanks: bool) returns (q: nat)
      requires Valid() && p <= cmdbufLen
      ensures q == SkipRight(State().line, p, blanks)
    {
      q := p;
      while q < cmdbufLen && (cmdbuf[q] == ' ') == blanks
        invariant p <= q <= cmdbufLen
        invariant SkipRight(cmdbuf[..cmdbufLen], q, blanks) == SkipRight(cmdbuf[..cmdbufLen], p, blanks)
      {
        assert cmdbuf[..cmdbufLen][q] == cmdbuf[q];
        q := q + 1;
      }
      assert q < cmdbufLen ==> cmdbuf[..cmdbufLen][q] == cmdbuf[q];
    }

    method EraseWord()
      requires Valid()
      modifies this`cmdbufPos, this`cmdbufLen, cmdbuf
      ensures Valid() && Edited() == Press(old(Edited()), DeleteWord)
    {
      var pos := Back(cmdbufPos, true);
      pos := Back(pos, false);
      CutOut(pos, cmdbufPos, cmdbufLen - cmdbufPos);
    }

    method EraseToStart()
      requires Valid()
      modifies this`cmdbufPos, this`cmdbufLen, cmdbuf
      ensures Valid() && Edited() == Press(old(Edited()), ClearLeft)
    {
      ghost var line := State().line;
      assert line[..0] + line[cmdbufPos..] == line[cmdbufPos..] && line[0..] == line;
      if cmdbufPos == 0 { return; }
      CutOut(0, cmdbufPos, cmdbufLen - cmdbufPos);
    }

    method EraseToEnd()
      requires Valid()
      modifies this`cmdbufLen
      ensures Valid() && Edited() == Press(old(Edited()), ClearRight)
    {
      ghost var line := State().line;
      assert line[..cmdbufLen] == line && cmdbuf[..cmdbufPos] == line[..cmdbufPos];
      if cmdbufPos == cmdbufLen { return; }
      cmdbufLen := cmdbufPos;
    }

    /** move_start, move_end, move_left, move_right, move_word_left and move_word_right. */
    method MoveCursor(key: Key)
      requires Valid() && (key.MoveStart? || key.MoveEnd? || key.MoveLeft? || key.MoveRight? || key.MoveWordLeft? || key.MoveWordRight?)
      modifies this`cmdbufPos
      ensures Valid() && Edited() == Press(old(Edited()), key)
    {
      var p := Target(key);
      SetCursor(p);
    }

    method Target(key: Key) returns (p: nat)
      requires Valid() && (key.MoveStart? || key.MoveEnd? || key.MoveLeft? || key.MoveRight? || key.MoveWordLeft? || key.MoveWordRight?)
      ensures p <= cmdbufLen && Press(Edited(), key) == Edited().(pos := p)
    {
      hide Ring, Values, Written, NulFree, SkipLeft, SkipRight;
      p := cmdbufPos;
      if key.MoveStart? {
        p := 0;
      } else if key.MoveEnd? {
        p := cmdbufLen;
      } else if key.MoveLeft? {
        if p > 0 { p := p - 1; }
      } else if key.MoveRight? {
        if p < cmdbufLen { p := p + 1; }
      } else if key.MoveWordLeft? {
        p := Back(p, true);
        p := Back(p, false);
      } else {
        p := Forward(p, true);
        p := Forward(p, false);
      }
    }

    method SetCursor(p: nat)
      requires Valid() && p <= cmdbufLen
      modifies this`cmdbufPos
      ensures Valid() && Edited() == old(Edited()).(pos := p)
    {
      hide Ring, Values, Written, NulFree;
      cmdbufPos := p;
    }

    /** process_cmd, as far as the line and the history go. */
    method ProcessCmd()
      requires Valid()
      modifies this, nodes
      ensures Valid() && Edited() == Press(old(Edited()), Enter)
      ensures forall i | 0 <= i < |nodes| :: nodes[i] in old(nodes) || fresh(nodes[i])
    {
      hide Ring, Values, Written, HistorySpec.Add;
      currbufValid := false;
      if cmdbufLen == 0 {
        assert cmdbuf[..0] == "";
        return;
      }
      ghost var line := cmdbuf[..cmdbufLen];
      assert line != "";
      HistoryAdd(cmdbuf[..cmdbufLen]);
      EmptyLine();
    }

    method EmptyLine()
      requires Valid()
      modifies this`cmdbufPos, this`cmdbufLen
      ensures Valid() && Edited() == WithLine(old(Edited()), "", 0)
    {
      hide Ring, Values, Written;
      cmdbufPos, cmdbufLen := 0, 0;
      assert cmdbuf[..0] == "";
    }

    /** search_stop, with the entry the search found. */
    method UseFound(found: nat)
      requires Valid() && found < |State().list|
      modifies this`cmdbufPos, this`cmdbufLen, cmdbuf
      ensures Valid() && Edited() == Press(old(Edited()), Search(found))
    {
      var h := EntryAt(found);
      hide Ring, Values, Written;
      Load(h.data.value);
    }

    method EntryAt(found: nat) returns (h: Link<string>)
      requires Valid() && found < |State().list|
      ensures h.data == Entry(State().list[found])
    {
      RingEntries(nodes);
      hide Ring, Entries, Values, Written, NulFree;
      h := head;
      for i := 0 to found + 1
        invariant h == nodes[i]
      {
        DlList.At(nodes, i);
        h := h.next;
      }
      DlList.At(nodes, found + 1);
    }

    lemma EditedIsClean()
      requires Valid()
      ensures Clean(Edited()) && Edited().nav == State()
      ensures cmdbufPos == Edited().pos && cmdbufLen == |State().line| && cmdbufPos <= cmdbufLen < CMD_BUF_LEN
    {
      hide Ring, Written, NulFree;
    }

    /** complete, with the array of words that the callback returned. */
    method CompleteWord(words: array<string>)
      requires Valid() && CanPress(Edited(), Complete(words[..]))
      modifies this`cmdbufPos, this`cmdbufLen, cmdbuf, words
      ensures Valid() && Edited() == Press(old(Edited()), Complete(old(words[..])))
    {
      hide Ring, Values, Written, NulFree, Press, CanPress, Word, Clean, Valid, State, Edited, SkipLeft, Fitting, Common, Matches;
      ghost var e, offered := Edited(), words[..];
      EditedIsClean();
      var start, count := Fit(words);
      FitsWord(e, offered, start, words[..count]);
      if count == 0 { return; }
      var common := MaxCommonLength(words, count);
      if common <= cmdbufPos - start && count > 1 { return; }
      PutWord(words[0], start, common, count == 1, offered, words[..count]);
    }

    /** The start of the word in front of the cursor, and what fits it at the front of the array. */
    method Fit(words: array<string>) returns (start: nat, count: nat)
      requires Valid()
      modifies words
      ensures Valid() && Edited() == old(Edited()) && State() == old(State())
      ensures start == SkipLeft(State().line, cmdbufPos, false) && count <= words.Length
      ensures words[..count] == Fitting(old(words[..]), State().line[start..cmdbufPos])
    {
      hide Ring, Values, Written, NulFree, Listed, Fitting, Matches;
      start := Back(cmdbufPos, false);
      var text := Between(start);
      count := FilterStrings(words, text);
    }

    /** The word goes in over its beginning. */
    method PutWord(best: string, start: nat, common: nat, single: bool, ghost offered: seq<string>, ghost fit: seq<string>)
      requires Valid() && CanPress(Edited(), Complete(offered)) && start == SkipLeft(State().line, cmdbufPos, false)
      requires fit == Fitting(offered, State().line[start..cmdbufPos]) && fit != [] && best == fit[0]
      requires common == Common(fit, |fit|) && (single <==> |fit| == 1) && (single || common > cmdbufPos - start)
      requires cmdbufPos - start <= common <= |best|
      modifies this`cmdbufPos, this`cmdbufLen, cmdbuf
      ensures Valid() && Edited() == Press(old(Edited()), Complete(offered))
    {
      EditedIsClean();
      hide Ring, Values, Written, NulFree, Press, CanPress, Word, Clean, Valid, State, Edited, SkipLeft, Fitting, Common, Matches;
      var word := Word(best, cmdbufPos - start, common, single, CMD_BUF_LEN - 1 - cmdbufLen);
      Completed(Edited(), offered, start, fit, word);
      PutIn(start, word);
    }

    /** The word in front of the cursor. */
    method Between(start: nat) returns (text: string)
      requires Valid() && start <= cmdbufPos
      ensures text == State().line[start..cmdbufPos]
    {
      text := cmdbuf[start..cmdbufPos];
      assert text == cmdbuf[..cmdbufLen][start..cmdbufPos];
    }

    /** edit_read_char, on the command behind the key. */
    method PressKey(key: Key)
      requires Valid() && CanPress(Edited(), key)
      modifies this, nodes, cmdbuf, currbuf
      ensures Valid() && Edited() == Press(old(Edited()), key)
      ensures forall i | 0 <= i < |nodes| :: nodes[i] in old(nodes) || fresh(nodes[i])
    {
      hide Ring, Values, Written, NulFree, Press, CanPress;
      KeyKinds(Edited(), key);
      match key
      case Insert(c) => InsertChar(c);
      case DeleteLeft => EraseLeft();
      case DeleteCurrent => EraseCurrent();
      case DeleteWord => EraseWord();
      case ClearLeft => EraseToStart();
      case ClearRight => EraseToEnd();
      case Previous =>
        HistoryPrev();
        Stepped(old(Edited()));
      case Following =>
        HistoryNext();
        Stepped(old(Edited()));
      case Enter => ProcessCmd();
      case Search(found) => UseFound(found);
      case Complete(words) =>
        var c := new string[|words|](i requires 0 <= i < |words| => words[i]);
        assert c[..] == words;
        CompleteWord(c);
      case _ => MoveCursor(key);
    }

    /** `strlen(currbuf)`: the saved line up to its first NUL. */
    method SavedLine() returns (line: string)
      requires Valid() && currbufValid
      ensures line == BeforeNul(saved)
    {
      BeforeNulWhole(saved);
      line := UpToNul(currbuf, saved + ['\0']);
    }
  }

  lemma WithValue(ring: seq<Link<string>>, k: nat)
    requires Ring(ring) && 0 < k < |ring|
    ensures ring[k].data.Entry?
  {
  }

  lemma StillThere<T>(s: seq<T>, t: seq<T>, k: nat)
    requires k < |s| && t == s[..k] + s[k + 1..]
    ensures forall i | 0 <= i < |t| :: t[i] in s
  {
  }

  lemma CutText(was: string, now: string, len: nat, from: nat, to: nat, count: nat)
    requires |was| == |now| && from <= to <= len <= |was| && len - to <= count && to + count <= |was|
    requires forall i {:trigger now[i]} | 0 <= i < |was| :: now[i] == if from <= i < from + count then was[to + (i - from)] else was[i]
    ensures now[..len - (to - from)] == was[..len][..from] + was[..len][to..]
  {
    assert was[..from] == now[..from];
    assert was[..len][..from] == was[..from];
    assert was[..len][to..] == was[to..len] == now[from..len - (to - from)] by {
      forall i | from <= i < len - (to - from) ensures now[i] == was[to + (i - from)] {
      }
    }
    Join(now, from, len - (to - from));
  }

  lemma Join(s: string, i: nat, j: nat)
    requires i <= j <= |s|
    ensures s[..j] == s[..i] + s[i..j]
  {
  }

  lemma PutText(was: string, moved: string, now: string, len: nat, from: nat, pos: nat, text: string)
    requires |was| == |moved| == |now| && from <= pos <= len && |text| >= pos - from && len + |text| - (pos - from) <= |was|
    requires forall i {:trigger moved[i]} | 0 <= i < |was| ::
               moved[i] == if from + |text| <= i < from + |text| + (len - pos) then was[pos + (i - (from + |text|))] else was[i]
    requires forall i {:trigger now[i]} | 0 <= i < |was| :: now[i] == if from <= i < from + |text| then text[i - from] else moved[i]
    ensures now[..len + |text| - (pos - from)] == was[..len][..from] + text + was[..len][pos..]
  {
    var mid, end := from + |text|, len + |text| - (pos - from);
    forall i | 0 <= i < from ensures now[i] == was[i] {
      assert now[i] == moved[i];
    }
    assert was[..from] == now[..from];
    assert was[..len][..from] == was[..from];
    assert text == now[from..mid];
    assert was[..len][pos..] == was[pos..len] == now[mid..end] by {
      forall i | mid <= i < end ensures now[i] == was[pos + (i - mid)] {
        assert now[i] == moved[i];
      }
    }
    Join(now, mid, end);
    Join(now, from, mid);
  }

  /** filter_strings: the words that match are moved to the front. */
  method FilterStrings(c: array<string>, str: string) returns (i: nat)
    modifies c
    ensures i <= c.Length && c[..i] == Fitting(old(c[..]), str)
  {
    ghost var was := c[..];
    i := 0;
    for j := 0 to c.Length
      invariant i <= j && c[..i] == Fitting(was[..j], str)
      invariant forall k | j <= k < c.Length :: c[k] == was[k]
    {
      assert was[..j + 1][..j] == was[..j];
      if Matches(c[j], str) {
        c[i] := c[j];
        i := i + 1;
      }
    }
    assert was[..c.Length] == was;
  }

  /** common_len. */
  method CommonLength(a: string, b: string) returns (len: nat)
    ensures len == CommonLen(a, b)
  {
    len := 0;
    assert a[0..] == a && b[0..] == b;
    while len < |a| && len < |b| && a[len] == b[len]
      invariant len <= |a| && len <= |b| && CommonLen(a, b) == len + CommonLen(a[len..], b[len..])
    {
      assert a[len..][1..] == a[len + 1..] && b[len..][1..] == b[len + 1..];
      len := len + 1;
    }
  }

  /** max_common_length of the first words. */
  method MaxCommonLength(c: array<string>, count: nat) returns (len: nat)
    requires 0 < count <= c.Length
    ensures len == Common(c[..count], count)
  {
    len := |c[0]|;
    ghost var words := c[..count];
    for i := 1 to count
      invariant len == Common(words, i)
    {
      var same := CommonLength(c[0], c[i]);
      if same < len { len := same; }
    }
  }

  /** What completion does as long as it leaves the line alone. */
  lemma FitsWord(e: Editor, words: seq<string>, start: nat, fit: seq<string>)
    requires Clean(e) && CanPress(e, Complete(words)) && start == SkipLeft(e.nav.line, e.pos, false)
    requires fit == Fitting(words, e.nav.line[start..e.pos])
    ensures fit == [] || (|fit| > 1 && Common(fit, |fit|) <= e.pos - start) ==> Press(e, Complete(words)) == e
    ensures fit != [] && (|fit| == 1 || Common(fit, |fit|) > e.pos - start) ==> e.pos - start <= Common(fit, |fit|) <= |fit[0]|
  {
    hide Word;
  }

  lemma Completed(e: Editor, words: seq<string>, start: nat, fit: seq<string>, word: string)
    requires Clean(e) && CanPress(e, Complete(words)) && start == SkipLeft(e.nav.line, e.pos, false)
    requires fit == Fitting(words, e.nav.line[start..e.pos]) && fit != []
    requires |fit| == 1 || Common(fit, |fit|) > e.pos - start
    requires e.pos - start <= Common(fit, |fit|) <= |fit[0]|
    requires word == Word(fit[0], e.pos - start, Common(fit, |fit|), |fit| == 1, CMD_BUF_LEN - 1 - |e.nav.line|)
    ensures NulFree(word) && e.pos - start <= |word| < e.pos - start + (CMD_BUF_LEN - |e.nav.line|)
    ensures Press(e, Complete(words))
         == WithLine(e, e.nav.line[..start] + word + e.nav.line[e.pos..], start + |word|)
  {
    hide Word, Fitting, Common, Matches, SkipLeft, NulFree;
    assert fit[0] in words;
  }

  lemma Stepped(e: Editor)
    requires e.pos <= |e.nav.line| < CMD_BUF_LEN && Sound(e.nav)
    ensures var n := Prev(e.nav); Press(e, Previous) == Editor(n, if n == e.nav then e.pos else |n.line|)
    ensures var n := Next(e.nav); Press(e, Following) == Editor(n, if n == e.nav then e.pos else |n.line|)
  {
  }

  lemma KeyKinds(e: Editor, key: Key)
    requires e.pos <= |e.nav.line| && CanPress(e, key)
    ensures key.Insert? ==> 32 <= key.c as int <= 255
    ensures key.Search? ==> key.found < |e.nav.list|
  {
  }

  /** A whole session, the history file included, refines the specification, so what is proved of it holds of
      the buffers and the list. */
  method Session(file: string, keys: seq<Key>) returns (editor: LineEditor)
    requires CanPressAll(Loaded(file), keys)
    ensures editor.Valid() && editor.Edited() == PressAll(Loaded(file), keys)
  {
    editor := new LineEditor();
    hide LineEditor.Listed, NulFree, Written, Clean;
    editor.HistoryRead(file);
    editor.PressKeys(keys);
  }

  /** Reading up to a terminator or the end of a line. */
  method StripLine(buf: string) returns (line: string)
    ensures line == UpToEnd(buf)
  {
    hide UpToEnd;
    var pos := 0;
    assert buf[..0] == "" && buf[0..] == buf;
    while pos < |buf| && buf[pos] != '\0' && buf[pos] != '\r' && buf[pos] != '\n'
      invariant pos <= |buf| && UpToEnd(buf) == buf[..pos] + UpToEnd(buf[pos..])
    {
      UpToEndStep(buf, pos);
      OneOver(buf, pos, UpToEnd(buf[pos + 1..]));
      pos := pos + 1;
    }
    UpToEndStep(buf, pos);
    line := buf[..pos];
    assert line + "" == line;
  }

  lemma UpToEndStep(buf: string, pos: nat)
    requires pos <= |buf|
    ensures UpToEnd(buf[pos..])
         == if pos == |buf| || buf[pos] == '\0' || buf[pos] == '\r' || buf[pos] == '\n' then "" else [buf[pos]] + UpToEnd(buf[pos + 1..])
  {
    assert pos < |buf| ==> buf[pos..][1..] == buf[pos + 1..];
  }

  /** `strlen` on a buffer that starts with this text, which ends in NUL. */
  method UpToNul(a: array<char>, ghost s: string) returns (line: string)
    requires Written(a, s) && s != "" && s[|s| - 1] == '\0'
    ensures line == BeforeNul(s)
  {
    hide BeforeNul;
    var n := 0;
    BeforeNulStep(s, 0);
    while a[n] != '\0'
      invariant n < |s| && BeforeNul(s) == s[..n] + BeforeNul(s[n..])
      decreases |s| - n
    {
      BeforeNulStep(s, n);
      n := n + 1;
    }
    BeforeNulStep(s, n);
    line := a[..n];
    assert line == s[..n] == s[..n] + "";
  }

  lemma OneOver(s: string, n: nat, rest: string)
    requires n < |s|
    ensures s[..n] + ([s[n]] + rest) == s[..n + 1] + rest
  {
    assert s[..n + 1] == s[..n] + [s[n]];
  }

  lemma BeforeNulStep(s: string, n: nat)
    requires n < |s|
    ensures s[n] == '\0' ==> BeforeNul(s[n..]) == ""
    ensures s[n] != '\0' ==> s[..n] + BeforeNul(s[n..]) == s[..n + 1] + BeforeNul(s[n + 1..])
    ensures n == 0 ==> s[n..] == s
  {
    var t := s[n..];
    assert t[1..] == s[n + 1..];
    if s[n] != '\0' {
      assert BeforeNul(t) == [s[n]] + BeforeNul(t[1..]);
      hide BeforeNul;
      OneOver(s, n, BeforeNul(t[1..]));
    }
  }

  lemma FirstAt(h: seq<string>, s: string, i: nat)
    requires i <= |h| && (i < |h| ==> h[i] == s) && forall k | 0 <= k < i :: h[k] != s
    ensures IndexOf(h, s) == i
  {}

  lemma Moved(q: seq<string>, s: string, i: nat)
    requires i == IndexOf(q, s) < |q| && s != ""
    ensures HistorySpec.Add(q, s) == [s] + (q[..i] + q[i + 1..])
  {}

  lemma Pushed(q: seq<string>, s: string)
    requires IndexOf(q, s) == |q| && s != ""
    ensures HistorySpec.Add(q, s) == [s] + (if |q| >= HISTORY_MAX then q[..|q| - 1] else q)
  {}
}
