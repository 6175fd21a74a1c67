/** String helpers: white space, letter case and hex digits. */
module Texts {
  /** White space as `trim` and `\s` see it, within ASCII plus the no-break space. */
  predicate IsSpace(c: char) {
    c == ' ' || ('\t' <= c <= '\r') || c == '\U{A0}'
  }

  function TrimStart(s: string): string {
    if s != "" && IsSpace(s[0]) then TrimStart(s[1..]) else s
  }

  function TrimEnd(s: string): string {
    if s != "" && IsSpace(s[|s| - 1]) then TrimEnd(s[..|s| - 1]) else s
  }

  function Trim(s: string): string { TrimEnd(TrimStart(s)) }

  /** Space, tab, line feed, vertical tab, form feed, carriage return and the no-break space. */
  lemma SpaceText(c: char)
    ensures IsSpace(c) <==> c as int in {0x20, 0x09, 0x0A, 0x0B, 0x0C, 0x0D, 0xA0}
  {
  }

  predicate Blank(s: string) { forall i | 0 <= i < |s| :: IsSpace(s[i]) }

  lemma {:induction false} TrimStartCuts(s: string)
    ensures var n := |s| - |TrimStart(s)|; n >= 0 && TrimStart(s) == s[n..] && Blank(s[..n])
    ensures TrimStart(s) == "" || !IsSpace(TrimStart(s)[0])
  {
    hide IsSpace;
    if s != "" && IsSpace(s[0]) {
      TrimStartCuts(s[1..]);
      var n := |s| - |TrimStart(s)|;
      assert s[1..][..n - 1] == s[..n][1..];
      forall i | 0 <= i < n ensures IsSpace(s[i]) {
        if i > 0 { assert s[i] == s[1..][..n - 1][i - 1]; }
      }
    }
  }

  lemma {:induction false} TrimEndCuts(s: string)
    ensures var n := |TrimEnd(s)|; n <= |s| && TrimEnd(s) == s[..n] && Blank(s[n..])
    ensures TrimEnd(s) == "" || !IsSpace(TrimEnd(s)[|TrimEnd(s)| - 1])
  {
    hide IsSpace;
    if s != "" && IsSpace(s[|s| - 1]) {
      var before, n := s[..|s| - 1], |TrimEnd(s)|;
      TrimEndCuts(before);
      forall i | n <= i < |s| ensures IsSpace(s[i]) {
        if i < |s| - 1 { assert s[i] == before[n..][i - n]; }
      }
    }
  }

  /** Trimming cuts white space off both ends, and all of it. */
  lemma TrimCuts(s: string)
    ensures exists before: string, after: string :: Blank(before) && Blank(after) && s == before + Trim(s) + after
    ensures Trim(s) == "" || (!IsSpace(Trim(s)[0]) && !IsSpace(Trim(s)[|Trim(s)| - 1]))
  {
    hide IsSpace, Blank, TrimStart, TrimEnd;
    var t := TrimStart(s);
    TrimStartCuts(s);
    TrimEndCuts(t);
    var before, after := s[..|s| - |t|], t[|Trim(s)|..];
    assert s == before + Trim(s) + after;
  }

  lemma TrimNothing(s: string)
    requires s == "" || (!IsSpace(s[0]) && !IsSpace(s[|s| - 1]))
    ensures Trim(s) == s
  {
  }

  // ASCII case folding; identifiers and ticker symbols are ASCII.

  function Upper(s: string): string {
    seq(|s|, i requires 0 <= i < |s| => if 'a' <= s[i] <= 'z' then s[i] - 'a' + 'A' else s[i])
  }

  function Lower(s: string): string {
    seq(|s|, i requires 0 <= i < |s| => if 'A' <= s[i] <= 'Z' then s[i] - 'A' + 'a' else s[i])
  }

  predicate IsHex(c: char) { '0' <= c <= '9' || 'a' <= c <= 'f' || 'A' <= c <= 'F' }

  predicate AllHex(s: string) { forall i | 0 <= i < |s| :: IsHex(s[i]) }

  /** Case folding moves the letters of ASCII, by 32, and leaves every other character. */
  lemma CaseText(s: string, i: nat)
    requires i < |s|
    ensures |Lower(s)| == |Upper(s)| == |s|
    ensures Lower(s)[i] as int == if 65 <= s[i] as int <= 90 then s[i] as int + 32 else s[i] as int
    ensures Upper(s)[i] as int == if 97 <= s[i] as int <= 122 then s[i] as int - 32 else s[i] as int
  {
  }
}
