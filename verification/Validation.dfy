/** Canonical identiTTY names. */
module Validation {
  import opened Prelude

  /** Rust's `char::is_whitespace`, Unicode's White_Space property. */
  predicate IsWhitespace(c: char) {
    '\U{9}' <= c <= '\U{D}' || c == ' ' || c == '\U{85}' || c == '\U{A0}' || c == '\U{1680}' ||
    '\U{2000}' <= c <= '\U{200A}' || c == '\U{2028}' || c == '\U{2029}' || c == '\U{202F}' ||
    c == '\U{205F}' || c == '\U{3000}'
  }

  function TrimStart(s: string): string {
    if s != "" && IsWhitespace(s[0]) then TrimStart(s[1..]) else s
  }

  function TrimEnd(s: string): string {
    if s != "" && IsWhitespace(s[|s|-1]) then TrimEnd(s[..|s|-1]) else s
  }

  function Trim(s: string): string {
    TrimEnd(TrimStart(s))
  }

  function LowerChar(c: char): char {
    if 'A' <= c <= 'Z' then c - 'A' + 'a' else c
  }

  function Lower(s: string): (l: string)
    ensures |l| == |s| && forall i | 0 <= i < |s| :: l[i] == LowerChar(s[i])
  {
    seq(|s|, i requires 0 <= i < |s| => LowerChar(s[i]))
  }

  /** `str::len` counts the bytes of the UTF-8 encoding. */
  function Utf8Length(s: string): nat {
    if s == "" then 0 else
    Utf8Length(s[1..]) +
    (if s[0] < '\U{80}' then 1 else if s[0] < '\U{800}' then 2 else if s[0] < '\U{10000}' then 3 else 4)
  }

  predicate NameChar(c: char) {
    'a' <= c <= 'z' || '0' <= c <= '9' || c == '_' || c == '-'
  }

  /** `normalise_identitty`; None is the INVALID_IDENTITTY error. */
  function Normalise(value: string): Option<string> {
    var name := Lower(Trim(value));
    if !(3 <= Utf8Length(name) <= 32) then None
    else if !('a' <= name[0] <= 'z') then None
    else if exists i | 0 <= i < |name| :: !NameChar(name[i]) then None
    else Some(name)
  }

  /** A canonical name: 3 to 32 characters of the alphabet, the first of them a letter. */
  predicate Canonical(name: string) {
    3 <= |name| <= 32 && 'a' <= name[0] <= 'z' && forall i | 0 <= i < |name| :: NameChar(name[i])
  }

  predicate Blank(s: string) {
    forall i | 0 <= i < |s| :: IsWhitespace(s[i])
  }

  /** Equal characters, but that a capital letter stands for the small letter 32 codes above it. */
  predicate StandsFor(c: char, d: char) {
    if 65 <= c as int <= 90 then d as int == c as int + 32 else d == c
  }

  /** The text is the name in any letter case. */
  predicate InAnyCase(text: string, name: string) {
    |text| == |name| && forall i | 0 <= i < |text| :: StandsFor(text[i], name[i])
  }

  /** The value is the name, in any letter case, with white space around it. */
  ghost predicate Spells(value: string, name: string) {
    exists before, core, after ::
      value == before + core + after && Blank(before) && Blank(after) && InAnyCase(core, name)
  }

  lemma LowerIsAnyCase(text: string, name: string)
    ensures InAnyCase(text, name) <==> Lower(text) == name
  {
    if InAnyCase(text, name) {
      assert forall i | 0 <= i < |text| :: Lower(text)[i] == name[i];
    }
  }

  lemma {:induction false} TrimStartSplits(s: string) returns (before: string)
    ensures s == before + TrimStart(s) && Blank(before)
  {
    before := "";
    if s != "" && IsWhitespace(s[0]) {
      var rest := TrimStartSplits(s[1..]);
      before := [s[0]] + rest;
    }
  }

  lemma {:induction false} TrimEndSplits(s: string) returns (after: string)
    ensures s == TrimEnd(s) + after && Blank(after)
  {
    after := "";
    if s != "" && IsWhitespace(s[|s|-1]) {
      var rest := TrimEndSplits(s[..|s|-1]);
      after := rest + [s[|s|-1]];
    }
  }

  lemma {:induction false} TrimStartBlank(before: string, rest: string)
    requires Blank(before) && rest != "" && !IsWhitespace(rest[0])
    ensures TrimStart(before + rest) == rest
  {
    if before == "" {
      assert before + rest == rest;
    } else {
      assert IsWhitespace(before[0]) && (before + rest)[1..] == before[1..] + rest;
      TrimStartBlank(before[1..], rest);
    }
  }

  lemma {:induction false} TrimEndBlank(core: string, after: string)
    requires Blank(after) && core != "" && !IsWhitespace(core[|core|-1])
    ensures TrimEnd(core + after) == core
  {
    if after == "" {
      assert core + after == core;
    } else {
      var last := |core + after| - 1;
      assert (core + after)[last] == after[|after|-1] && (core + after)[..last] == core + after[..|after|-1];
      TrimEndBlank(core, after[..|after|-1]);
    }
  }

  lemma {:induction false} AsciiLength(s: string)
    requires forall i | 0 <= i < |s| :: NameChar(s[i])
    ensures Utf8Length(s) == |s|
  {
    if s != "" {
      AsciiLength(s[1..]);
    }
  }

  lemma NormaliseTrims(value: string)
    ensures Normalise(value) == (if Canonical(Lower(Trim(value))) then Some(Lower(Trim(value))) else None)
  {
    var name := Lower(Trim(value));
    if forall i | 0 <= i < |name| :: NameChar(name[i]) {
      AsciiLength(name);
    }
  }

  /** Normalisation accepts exactly the spellings of canonical names, and answers the name spelled. */
  lemma NormaliseExact(value: string, name: string)
    ensures Normalise(value) == Some(name) <==> Canonical(name) && Spells(value, name)
  {
    NormaliseTrims(value);
    if Normalise(value) == Some(name) {
      var before := TrimStartSplits(value);
      var after := TrimEndSplits(TrimStart(value));
      LowerIsAnyCase(Trim(value), name);
      assert value == before + Trim(value) + after;
    }
    if Canonical(name) && Spells(value, name) {
      var before, core, after :|
        value == before + core + after && Blank(before) && Blank(after) && InAnyCase(core, name);
      LowerIsAnyCase(core, name);
      assert !IsWhitespace(core[0]) && !IsWhitespace(core[|core|-1]);
      assert value == before + (core + after);
      TrimStartBlank(before, core + after);
      TrimEndBlank(core, after);
    }
  }

  lemma NormaliseIdempotent(value: string)
    requires Normalise(value).Some?
    ensures Normalise(Normalise(value).value) == Normalise(value)
  {
    var name := Normalise(value).value;
    NormaliseExact(value, name);
    assert InAnyCase(name, name);
    assert name == "" + name + "" && Blank("");
    NormaliseExact(name, name);
  }

  /** The NOCASE collation of the name column. */
  predicate NoCaseEqual(a: string, b: string) {
    Lower(a) == Lower(b)
  }

  /** On canonical names the column's collation is plain equality. */
  lemma NoCaseIsEquality(a: string, b: string)
    requires Canonical(a) && Canonical(b)
    ensures NoCaseEqual(a, b) <==> a == b
  {
    assert Lower(a) == a && Lower(b) == b;
  }
}
