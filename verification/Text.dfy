/** The string operations of Rust that the command parser uses. */
module Text {
  import opened Wrappers

  /** `char::is_whitespace`: Unicode's `White_Space` property. */
  predicate IsWhite(c: char) {
    var n := c as int;
    || 0x09 <= n <= 0x0D || n == 0x20 || n == 0x85 || n == 0xA0 || n == 0x1680
    || 0x2000 <= n <= 0x200A || n == 0x2028 || n == 0x2029 || n == 0x202F || n == 0x205F || n == 0x3000
  }

  /** The white characters one by one: tab, line feed, vertical tab, form feed, carriage return, space, ... */
  lemma WhiteCharacters(c: char)
    ensures IsWhite(c) <==>
              || c in {'\t', '\n', '\U{0B}', '\U{0C}', '\r', ' ', '\U{85}', '\U{A0}', '\U{1680}'}
              || c in {'\U{2000}', '\U{2001}', '\U{2002}', '\U{2003}', '\U{2004}', '\U{2005}', '\U{2006}', '\U{2007}'}
              || c in {'\U{2008}', '\U{2009}', '\U{200A}', '\U{2028}', '\U{2029}', '\U{202F}', '\U{205F}', '\U{3000}'}
  {}

  predicate AllWhite(s: string) {
    forall i :: 0 <= i < |s| ==> IsWhite(s[i])
  }

  predicate NoWhite(s: string) {
    forall i :: 0 <= i < |s| ==> !IsWhite(s[i])
  }

  /** `str::trim_start` */
  function TrimStart(s: string): (r: string)
    ensures r == "" || !IsWhite(r[0])
  {
    if s != "" && IsWhite(s[0]) then TrimStart(s[1..]) else s
  }

  /** `str::trim_end` */
  function TrimEnd(s: string): (r: string)
    ensures r == "" || !IsWhite(r[|r| - 1])
    ensures r <= s
  {
    if s != "" && IsWhite(s[|s| - 1]) then TrimEnd(s[..|s| - 1]) else s
  }

  /** `str::trim` */
  function Trim(s: string): string {
    TrimEnd(TrimStart(s))
  }

  /** No whitespace on either end. */
  predicate IsTrimmed(s: string) {
    s == "" || (!IsWhite(s[0]) && !IsWhite(s[|s| - 1]))
  }

  /** The longest prefix without whitespace. */
  function LeadingWord(s: string): (r: string)
    ensures NoWhite(r) && r <= s
    ensures |r| < |s| ==> IsWhite(s[|r|])
  {
    if s == "" || IsWhite(s[0]) then "" else [s[0]] + LeadingWord(s[1..])
  }

  /** `s.split_whitespace().next()` */
  function FirstWord(s: string): Option<string> {
    var t := TrimStart(s);
    if t == "" then None else Some(LeadingWord(t))
  }

  /** `s.strip_prefix(prefix)` */
  function StripPrefix(s: string, prefix: string): Option<string> {
    if prefix <= s then Some(s[|prefix|..]) else None
  }

  // ---- Trimming ----

  lemma {:induction false} TrimStartDrops(white: string, s: string)
    requires AllWhite(white)
    ensures TrimStart(white + s) == TrimStart(s)
  {
    if white == "" {
      assert white + s == s;
    } else {
      assert (white + s)[1..] == white[1..] + s;
      TrimStartDrops(white[1..], s);
    }
  }

  lemma {:induction false} TrimStartSplits(s: string)
    ensures exists white :: AllWhite(white) && s == white + TrimStart(s)
  {
    if s != "" && IsWhite(s[0]) {
      TrimStartSplits(s[1..]);
      var white :| AllWhite(white) && s[1..] == white + TrimStart(s[1..]);
      assert AllWhite([s[0]] + white) && s == ([s[0]] + white) + TrimStart(s);
    } else {
      assert AllWhite("") && s == "" + TrimStart(s);
    }
  }

  lemma {:induction false} TrimEndSplits(s: string)
    ensures exists white :: AllWhite(white) && s == TrimEnd(s) + white
  {
    if s != "" && IsWhite(s[|s| - 1]) {
      var init, c := s[..|s| - 1], s[|s| - 1];
      TrimEndSplits(init);
      var white :| AllWhite(white) && init == TrimEnd(init) + white;
      assert AllWhite(white + [c]) && s == TrimEnd(s) + (white + [c]);
    } else {
      assert AllWhite("") && s == TrimEnd(s) + "";
    }
  }

  /** Trimming leaves a trimmed text, and trimmed texts alone. */
  lemma TrimTrims(s: string)
    ensures IsTrimmed(Trim(s))
    ensures IsTrimmed(s) ==> Trim(s) == s
  {
    var t, r := TrimStart(s), Trim(s);
    if r != "" {
      assert r[0] == t[0];
    }
  }

  lemma {:induction false} TrimEndDrops(s: string, white: string)
    requires AllWhite(white)
    ensures TrimEnd(s + white) == TrimEnd(s)
    decreases |white|
  {
    if white == "" {
      assert s + white == s;
    } else {
      assert (s + white)[..|s + white| - 1] == s + white[..|white| - 1];
      TrimEndDrops(s, white[..|white| - 1]);
    }
  }

  lemma TrimDrops(white: string, s: string)
    requires AllWhite(white)
    ensures Trim(white + s) == Trim(s)
  {
    TrimStartDrops(white, s);
  }

  lemma {:induction false} TrimStartKeepsEnd(s: string, rest: string)
    requires s != "" && !IsWhite(s[|s| - 1])
    ensures TrimStart(s) != "" && TrimStart(s + rest) == TrimStart(s) + rest
  {
    if IsWhite(s[0]) {
      assert (s + rest)[1..] == s[1..] + rest;
      TrimStartKeepsEnd(s[1..], rest);
    }
  }

  lemma TrimOfTrimEnd(s: string)
    ensures Trim(TrimEnd(s)) == Trim(s)
  {
    var t := TrimEnd(s);
    TrimEndSplits(s);
    var white :| AllWhite(white) && s == t + white;
    if t == "" {
      assert s == white + "";
      TrimStartDrops(white, "");
    } else {
      TrimStartKeepsEnd(t, white);
      TrimEndDrops(TrimStart(t), white);
    }
  }

  /** Behind a last character that is not white, trimming the whole trims the rest. */
  lemma {:induction false} TrimEndBehind(s: string, rest: string)
    requires s != "" && !IsWhite(s[|s| - 1])
    ensures TrimEnd(s + rest) == s + TrimEnd(rest)
    decreases |rest|
  {
    if rest == "" {
      assert s + rest == s;
    } else {
      assert (s + rest)[..|s + rest| - 1] == s + rest[..|rest| - 1];
      TrimEndBehind(s, rest[..|rest| - 1]);
    }
  }

  lemma {:induction false} TrimEndAhead(prefix: string, s: string)
    requires TrimEnd(s) != ""
    ensures TrimEnd(prefix + s) == prefix + TrimEnd(s)
    decreases |s|
  {
    assert (prefix + s)[..|prefix + s| - 1] == prefix + s[..|s| - 1];
    if IsWhite(s[|s| - 1]) {
      TrimEndAhead(prefix, s[..|s| - 1]);
    }
  }

  // ---- Words ----

  /** A word followed by whitespace, or by nothing, is the leading word. */
  lemma {:induction false} LeadingWordIs(word: string, rest: string)
    requires NoWhite(word) && (rest == "" || IsWhite(rest[0]))
    ensures LeadingWord(word + rest) == word
  {
    if word == "" {
      assert word + rest == rest;
    } else {
      assert (word + rest)[1..] == word[1..] + rest;
      LeadingWordIs(word[1..], rest);
    }
  }

  lemma LeadingWordNonempty(s: string)
    requires s != "" && !IsWhite(s[0])
    ensures LeadingWord(s) != ""
  {}
}
