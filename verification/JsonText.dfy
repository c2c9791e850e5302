/** JSON string literals: a reader that follows section 7 of RFC 8259, and what an escaping
    table must satisfy for that reader to give the text back. */
module JsonText {
  import opened Common

  const BACKSPACE: char := '\U{0008}'
  const FORM_FEED: char := '\U{000C}'
  const QUOTE: string := "\""

  function HexValue(c: char): Option<nat> {
    if '0' <= c <= '9' then Some(c as int - '0' as int)
    else if 'a' <= c <= 'f' then Some(c as int - 'a' as int + 10)
    else if 'A' <= c <= 'F' then Some(c as int - 'A' as int + 10)
    else None
  }

  /** The character of a four-digit escape, when it is one by itself. */
  function FourHex(a: char, b: char, c: char, d: char): Option<char> {
    var w, x, y, z := HexValue(a), HexValue(b), HexValue(c), HexValue(d);
    if w.None? || x.None? || y.None? || z.None? then None
    else
      var code := ((w.value * 16 + x.value) * 16 + y.value) * 16 + z.value;
      if code < 0xD800 || 0xE000 <= code <= 0xFFFF then Some(code as char) else None
  }

  /** The character that a two-character escape stands for. */
  function ShortEscape(c: char): Option<char> {
    if c == '"' || c == '\\' || c == '/' then Some(c)
    else if c == 'b' then Some(BACKSPACE)
    else if c == 'f' then Some(FORM_FEED)
    else if c == 'n' then Some('\n')
    else if c == 'r' then Some('\r')
    else if c == 't' then Some('\t')
    else None
  }

  function Prepend(c: char, tail: Option<(string, string)>): Option<(string, string)> {
    if tail.None? then None else Some(([c] + tail.value.0, tail.value.1))
  }

  predicate IsControl(c: char) {
    c < ' '
  }

  /** Read a string literal after its opening quote: its value and what follows the closing
      quote. Fails on a raw control character, a bad escape or a missing closing quote. */
  function ReadString(s: string): Option<(string, string)>
    decreases |s|
  {
    if s == [] then None
    else if s[0] == '"' then Some(([], s[1..]))
    else if IsControl(s[0]) then None
    else if s[0] != '\\' then Prepend(s[0], ReadString(s[1..]))
    else if |s| < 2 then None
    else if ShortEscape(s[1]).Some? then Prepend(ShortEscape(s[1]).value, ReadString(s[2..]))
    else if s[1] == 'u' && |s| >= 6 then
      var c := FourHex(s[2], s[3], s[4], s[5]);
      if c.None? then None else Prepend(c.value, ReadString(s[6..]))
    else None
  }

  /** Escape character by character with a table. */
  function EscapeWith(table: char -> string, s: string): string {
    if s == [] then [] else table(s[0]) + EscapeWith(table, s[1..])
  }

  /** The reader takes `e` for the one character `c`, whatever follows. */
  ghost predicate Decodes(e: string, c: char) {
    forall rest {:trigger ReadString(e + rest)} :: ReadString(e + rest) == Prepend(c, ReadString(rest))
  }

  lemma DecodesRaw(c: char)
    requires c != '"' && c != '\\' && !IsControl(c)
    ensures Decodes([c], c)
  {
    forall rest ensures ReadString([c] + rest) == Prepend(c, ReadString(rest)) {
      assert ([c] + rest)[1..] == rest;
    }
  }

  lemma DecodesShort(d: char)
    requires ShortEscape(d).Some?
    ensures Decodes(['\\', d], ShortEscape(d).value)
  {
    forall rest ensures ReadString(['\\', d] + rest) == Prepend(ShortEscape(d).value, ReadString(rest)) {
      assert (['\\', d] + rest)[2..] == rest;
    }
  }

  lemma DecodesLong(w: char, x: char, y: char, z: char)
    requires FourHex(w, x, y, z).Some?
    ensures Decodes(['\\', 'u', w, x, y, z], FourHex(w, x, y, z).value)
  {
    var e := ['\\', 'u', w, x, y, z];
    forall rest ensures ReadString(e + rest) == Prepend(FourHex(w, x, y, z).value, ReadString(rest)) {
      assert (e + rest)[6..] == rest;
    }
  }

  function PrependAll(s: string, tail: Option<(string, string)>): Option<(string, string)> {
    if tail.None? then None else Some((s + tail.value.0, tail.value.1))
  }

  lemma PrependStep(c: char, s: string, tail: Option<(string, string)>)
    ensures Prepend(c, PrependAll(s, tail)) == PrependAll([c] + s, tail)
  {
    if tail.Some? {
      assert [c] + (s + tail.value.0) == [c] + s + tail.value.0;
    }
  }

  lemma DecodesOnce(e: string, c: char, rest: string)
    requires Decodes(e, c)
    ensures ReadString(e + rest) == Prepend(c, ReadString(rest))
  {
  }

  ghost predicate TableDecodes(table: char -> string, s: string) {
    forall i :: 0 <= i < |s| ==> Decodes(table(s[i]), s[i])
  }

  /** Reading an escaped prefix gives its characters back, in front of what follows. */
  lemma {:induction false} ReadPrefix(table: char -> string, s: string, rest: string)
    requires TableDecodes(table, s)
    ensures ReadString(EscapeWith(table, s) + rest) == PrependAll(s, ReadString(rest))
  {
    if s == [] {
      assert EscapeWith(table, s) + rest == rest;
      if ReadString(rest).Some? {
        assert [] + ReadString(rest).value.0 == ReadString(rest).value.0;
      }
    } else {
      var tail := EscapeWith(table, s[1..]) + rest;
      assert EscapeWith(table, s) + rest == table(s[0]) + tail;
      DecodesOnce(table(s[0]), s[0], tail);
      ReadPrefix(table, s[1..], rest);
      PrependStep(s[0], s[1..], ReadString(rest));
      assert s == [s[0]] + s[1..];
    }
  }

  /** A literal written with a decodable table reads back, and ends at its own closing quote. */
  lemma ReadBack(table: char -> string, s: string, rest: string)
    requires TableDecodes(table, s)
    ensures ReadString(EscapeWith(table, s) + QUOTE + rest) == Some((s, rest))
  {
    assert EscapeWith(table, s) + QUOTE + rest == EscapeWith(table, s) + (QUOTE + rest);
    assert (QUOTE + rest)[1..] == rest;
    ReadPrefix(table, s, QUOTE + rest);
    assert s + [] == s;
  }

  lemma {:induction false} EscapeAppend(table: char -> string, a: string, b: string)
    ensures EscapeWith(table, a + b) == EscapeWith(table, a) + EscapeWith(table, b)
  {
    if a == [] {
      assert a + b == b;
    } else {
      assert (a + b)[1..] == a[1..] + b;
      EscapeAppend(table, a[1..], b);
    }
  }

  /** A raw control character makes the literal unreadable. */
  lemma RawControlFails(table: char -> string, s: string, rest: string, k: nat)
    requires k < |s| && IsControl(s[k]) && table(s[k]) == [s[k]]
    requires TableDecodes(table, s[..k])
    ensures ReadString(EscapeWith(table, s) + rest).None?
  {
    var tail := EscapeWith(table, s[k..]) + rest;
    assert s == s[..k] + s[k..];
    EscapeAppend(table, s[..k], s[k..]);
    assert EscapeWith(table, s) + rest == EscapeWith(table, s[..k]) + tail;
    assert tail[0] == s[k];
    ReadPrefix(table, s[..k], tail);
  }

  // ----- The reader's tables in plain numbers

  /** Control characters are those below U+0020. */
  lemma ControlMeans(c: char)
    ensures IsControl(c) <==> c as int < 0x20
  {
  }

  /** The short escapes of the standard, and no others. */
  lemma ShortEscapesMean(c: char)
    ensures ShortEscape(c).Some? <==> c in ['"', '\\', '/', 'b', 'f', 'n', 'r', 't']
    ensures c in ['"', '\\', '/'] ==> ShortEscape(c) == Some(c)
    ensures c == 'b' ==> ShortEscape(c).value as int == 0x08
    ensures c == 't' ==> ShortEscape(c).value as int == 0x09
    ensures c == 'n' ==> ShortEscape(c).value as int == 0x0A
    ensures c == 'f' ==> ShortEscape(c).value as int == 0x0C
    ensures c == 'r' ==> ShortEscape(c).value as int == 0x0D
  {
  }
}
