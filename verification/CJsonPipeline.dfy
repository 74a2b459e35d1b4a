/** Printer, minifier and parser of tools/cJSON/cJSON.c run one after the other on one buffer. */
module CJsonPipeline {
  import opened CBuffer
  import opened CJson
  import opened CJsonPrint
  import opened CJsonMinify
  import opened CJsonParse
  import opened CJsonRoundTrip

  /** Printing with formatting, minifying the buffer in place and parsing what is left gives the tree
      back, and the buffer then holds what the unformatted printer would have written. */
  method PrintMinifyParse(j: Json) returns (buffer: array<char>, r: Outcome<Json>)
    requires Printable(j)
    ensures Holds(buffer, Print(j, 0, false))
    ensures r == Done(j, |Print(j, 0, false)|)
  {
    hide Print, Minify, ParseValue, Skip, Printable;
    ghost var long, short := Print(j, 0, true), Print(j, 0, false);
    buffer := PrintValue(j, 0, true);
    MinifyPrint(j, true);
    PrintNulFree(j, 0, false);
    var n := Length(buffer, long);
    var ok := MinifyInPlace(buffer, n);
    assert ok && Holds(buffer, short) by { HoldsPrefix(buffer, short); }
    var text := Text(buffer, short);
    ParsePrint(j, false, true);
    r := ParseText(text, true);
    DoneAt(r, j, text);
  }

  /** `strlen`. */
  method Length(a: array<char>, ghost text: string) returns (n: nat)
    requires Holds(a, text)
    ensures n == |text| < a.Length && a[n] == '\0' && a[..n] == text
  {
    var s := Text(a, text);
    n := |s|;
    assert a[n] == (text + ['\0'])[n];
    assert forall k | 0 <= k < n :: a[k] == (text + ['\0'])[k];
  }

  lemma HoldsPrefix(a: array<char>, t: string)
    requires NulFree(t) && |t| < a.Length && a[..|t| + 1] == t + ['\0']
    ensures Holds(a, t)
  {
    assert forall k | 0 <= k <= |t| :: a[k] == a[..|t| + 1][k];
  }

  /** A parse that uses up the text ends at its end. */
  lemma DoneAt(r: Outcome<Json>, j: Json, text: string)
    requires Agrees(r, Ok(j, ""), text)
    ensures r == Done(j, |text|)
  {
    assert |text[r.next..]| == 0;
  }
}
