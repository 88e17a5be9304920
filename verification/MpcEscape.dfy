// Escaping and unescaping characters.
module MpcEscape {
  import opened Sequences

  /** A character and the two-character code that stands for it. */
  datatype Code = Code(c: char, first: char, second: char)

  type Table = seq<Code>

  const C_TABLE: Table := [
    Code('\U{0007}', '\\', 'a'), Code('\U{0008}', '\\', 'b'), Code('\U{000C}', '\\', 'f'), Code('\n', '\\', 'n'),
    Code('\r', '\\', 'r'), Code('\t', '\\', 't'), Code('\U{000B}', '\\', 'v'), Code('\\', '\\', '\\'),
    Code('\'', '\\', '\''), Code('\"', '\\', '\"'), Code('\0', '\\', '0')]

  const RAW_REGEX_TABLE: Table := [Code('/', '\\', '/')]
  const RAW_STRING_TABLE: Table := [Code('\"', '\\', '\"')]
  const RAW_CHAR_TABLE: Table := [Code('\'', '\\', '\'')]

  /** The first code for a character, or the length of the table. */
  function CodeOf(t: Table, c: char): (i: nat)
    ensures i <= |t|
    ensures i < |t| ==> t[i].c == c
    ensures forall j :: 0 <= j < i ==> t[j].c != c
  {
    if t == [] || t[0].c == c then 0 else 1 + CodeOf(t[1..], c)
  }

  /** The first code that reads as two characters, or the length of the table. */
  function Decoded(t: Table, a: char, b: char): (i: nat)
    ensures i <= |t|
    ensures i < |t| ==> t[i].first == a && t[i].second == b
    ensures forall j :: 0 <= j < i ==> !(t[j].first == a && t[j].second == b)
  {
    if t == [] || (t[0].first == a && t[0].second == b) then 0 else 1 + Decoded(t[1..], a, b)
  }

  function EscapeChar(t: Table, c: char): string {
    var i := CodeOf(t, c);
    if i < |t| then [t[i].first, t[i].second] else [c]
  }

  function Escape(t: Table, s: string): string {
    if s == "" then "" else EscapeChar(t, s[0]) + Escape(t, s[1..])
  }

  /** The second of two characters, NUL at the end of the string. */
  function Next(s: string): char { if |s| > 1 then s[1] else '\0' }

  function Unescape(t: Table, s: string): string {
    if s == "" then ""
    else
      var i := Decoded(t, s[0], Next(s));
      if i < |t| then [t[i].c] + (if |s| > 1 then Unescape(t, s[2..]) else "")
      else [s[0]] + Unescape(t, s[1..])
  }

  /** The scan for a code, as it runs. */
  method FindCode(t: Table, c: char) returns (i: nat)
    ensures i == CodeOf(t, c)
  {
    i := 0;
    while i < |t| && t[i].c != c
      invariant i <= |t|
      invariant forall j :: 0 <= j < i ==> t[j].c != c
    {
      i := i + 1;
    }
  }

  method FindDecoded(t: Table, a: char, b: char) returns (i: nat)
    ensures i == Decoded(t, a, b)
  {
    i := 0;
    while i < |t| && !(t[i].first == a && t[i].second == b)
      invariant i <= |t|
      invariant forall j :: 0 <= j < i ==> !(t[j].first == a && t[j].second == b)
    {
      i := i + 1;
    }
  }

  lemma EscapeAt(t: Table, x: string, s: nat, y: string)
    requires s < |x|
    ensures y + Escape(t, x[s..]) == (y + EscapeChar(t, x[s])) + Escape(t, x[s+1..])
  {
    assert x[s..][1..] == x[s+1..];
    Associate(y, EscapeChar(t, x[s]), Escape(t, x[s+1..]));
  }

  method EscapeNew(t: Table, x: string) returns (y: string)
    ensures y == Escape(t, x)
  {
    hide Escape;
    y := "";
    var s := 0;
    assert x[0..] == x;
    while s < |x|
      invariant 0 <= s <= |x|
      invariant y + Escape(t, x[s..]) == Escape(t, x)
    {
      var i := FindCode(t, x[s]);
      EscapeAt(t, x, s, y);
      if i < |t| { y := y + [t[i].first, t[i].second]; } else { y := y + [x[s]]; }
      s := s + 1;
    }
    EscapeEmpty(t);
    assert x[s..] == "";
  }

  lemma EscapeEmpty(t: Table)
    ensures Escape(t, "") == ""
  {
  }

  lemma UnescapeAt(t: Table, x: string, s: nat, b: char)
    requires s < |x| && b == if s + 1 < |x| then x[s+1] else '\0'
    ensures var i := Decoded(t, x[s], b);
            Unescape(t, x[s..]) ==
              if i == |t| then [x[s]] + Unescape(t, x[s+1..])
              else [t[i].c] + if s + 1 < |x| then Unescape(t, x[s+2..]) else ""
  {
    assert x[s..][1..] == x[s+1..];
    if s + 1 < |x| { assert x[s..][2..] == x[s+2..]; }
  }

  method UnescapeNew(t: Table, x: string) returns (y: string)
    ensures y == Unescape(t, x)
  {
    hide Unescape, Decoded;
    y := "";
    var s := 0;
    assert x[0..] == x;
    while s < |x|
      invariant 0 <= s <= |x|
      invariant y + Unescape(t, x[s..]) == Unescape(t, x)
    {
      var b := if s + 1 < |x| then x[s+1] else '\0';
      var i := FindDecoded(t, x[s], b);
      UnescapeAt(t, x, s, b);
      if i < |t| {
        y := y + [t[i].c];
        s := s + 1;
        if s == |x| { return; }
      } else {
        y := y + [x[s]];
      }
      s := s + 1;
    }
    UnescapeEmpty(t);
    assert x[s..] == "";
  }

  lemma UnescapeEmpty(t: Table)
    ensures Unescape(t, "") == ""
  {
  }

  /** What makes a table reversible: every code is a backslash and a character that is not NUL,
      no two codes are the same, and either the backslash has a code or every character stands for
      itself behind the backslash. */
  ghost predicate Reversible(t: Table) {
    && (forall i :: 0 <= i < |t| ==> t[i].first == '\\' && t[i].second != '\0')
    && (forall i, j :: 0 <= i < j < |t| ==> t[i].second != t[j].second)
    && ((exists i :: 0 <= i < |t| && t[i].c == '\\')
        || forall i :: 0 <= i < |t| ==> t[i].c == t[i].second)
  }

  lemma EscapedHead(t: Table, s: string)
    requires s != ""
    ensures Escape(t, s) != "" && Escape(t, s)[0] == EscapeChar(t, s[0])[0]
  {
  }

  /** Unescaping undoes escaping. */
  lemma {:induction false} RoundTrip(t: Table, s: string)
    requires Reversible(t)
    ensures Unescape(t, Escape(t, s)) == s
  {
    if s != "" {
      RoundTrip(t, s[1..]);
      var i, rest := CodeOf(t, s[0]), Escape(t, s[1..]);
      var e := Escape(t, s);
      assert e == EscapeChar(t, s[0]) + rest;
      if i < |t| {
        assert e[0] == t[i].first && Next(e) == t[i].second && e[2..] == rest;
        assert Decoded(t, e[0], Next(e)) == i;
      } else {
        assert e[1..] == rest;
        if s[1..] != "" { EscapedHead(t, s[1..]); }
        assert Decoded(t, e[0], Next(e)) == |t|;
      }
    }
  }

  lemma TablesAreReversible()
    ensures Reversible(C_TABLE) && Reversible(RAW_REGEX_TABLE) && Reversible(RAW_STRING_TABLE)
    ensures Reversible(RAW_CHAR_TABLE)
  {
    assert C_TABLE[7].c == '\\';
  }

  /** The code of each listed character; any other stands for itself. */
  lemma CEscapes(c: char)
    ensures EscapeChar(C_TABLE, '\U{0007}') == "\\a" && EscapeChar(C_TABLE, '\U{0008}') == "\\b" && EscapeChar(C_TABLE, '\U{000C}') == "\\f"
    ensures EscapeChar(C_TABLE, '\n') == "\\n" && EscapeChar(C_TABLE, '\r') == "\\r" && EscapeChar(C_TABLE, '\t') == "\\t"
    ensures EscapeChar(C_TABLE, '\U{000B}') == "\\v" && EscapeChar(C_TABLE, '\\') == "\\\\"
    ensures EscapeChar(C_TABLE, '\'') == "\\'" && EscapeChar(C_TABLE, '\"') == "\\\"" && EscapeChar(C_TABLE, '\0') == "\\0"
    ensures !(7 <= c as int <= 13) && c != '\\' && c != '\'' && c != '\"' && c != '\0' ==> EscapeChar(C_TABLE, c) == [c]
  {
    hide EscapeChar;
    Coded(C_TABLE, 0);
    Coded(C_TABLE, 1);
    Coded(C_TABLE, 2);
    Coded(C_TABLE, 3);
    Coded(C_TABLE, 4);
    Coded(C_TABLE, 5);
    Coded(C_TABLE, 6);
    Coded(C_TABLE, 7);
    Coded(C_TABLE, 8);
    Coded(C_TABLE, 9);
    Coded(C_TABLE, 10);
    Uncoded(C_TABLE, c);
  }

  lemma Coded(t: Table, i: nat)
    requires i < |t| && forall j :: 0 <= j < i ==> t[j].c != t[i].c
    ensures EscapeChar(t, t[i].c) == [t[i].first, t[i].second]
  {
  }

  lemma Uncoded(t: Table, c: char)
    ensures (forall i :: 0 <= i < |t| ==> t[i].c != c) ==> EscapeChar(t, c) == [c]
  {
  }

  /** In the raw tables only the closing mark has a code: itself behind a backslash. */
  lemma RawEscapes(c: char)
    ensures EscapeChar(RAW_REGEX_TABLE, c) == if c == '/' then "\\/" else [c]
    ensures EscapeChar(RAW_STRING_TABLE, c) == if c == '\"' then "\\\"" else [c]
    ensures EscapeChar(RAW_CHAR_TABLE, c) == if c == '\'' then "\\'" else [c]
  {
  }
}
