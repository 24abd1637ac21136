/** The linear URL scan against the regular expression it replaces:
    an optional scheme `[a-z][a-z0-9+.-]*:` (case ignored), then `//`, then at
    least one character that is neither white space nor one of `<>"'`. */
module UrlScan {
  import opened Options

  predicate InRange(c: char, lo: int, hi: int)
  {
    lo <= c as int <= hi
  }

  /** `str.isspace`, which is also what `\s` matches. */
  predicate IsSpace(c: char)
  {
    || InRange(c, 0x09, 0x0D) || InRange(c, 0x1C, 0x20) || c as int in {0x85, 0xA0, 0x1680}
    || InRange(c, 0x2000, 0x200A) || c as int in {0x2028, 0x2029, 0x202F, 0x205F, 0x3000}
  }

  predicate IsBodyChar(c: char)
  {
    !IsSpace(c) && c != '<' && c != '>' && c != '"' && c != '\''
  }

  /** `[a-z]` with case ignored also matches four letters outside ASCII. */
  predicate IsSchemeLetter(c: char)
  {
    'a' <= c <= 'z' || 'A' <= c <= 'Z' || c as int in {0x130, 0x131, 0x17F, 0x212A}
  }

  predicate IsSchemeChar(c: char)
  {
    IsSchemeLetter(c) || '0' <= c <= '9' || c == '+' || c == '.' || c == '-'
  }

  /** `//` followed by a body character. */
  predicate BodyAt(text: string, at: nat)
  {
    at + 2 < |text| && text[at] == '/' && text[at + 1] == '/' && IsBodyChar(text[at + 2])
  }

  predicate SchemeChars(text: string, from: nat, to: nat)
  {
    from <= to <= |text| && forall i | from <= i < to :: IsSchemeChar(text[i])
  }

  predicate SchemeAt(text: string, from: nat, colon: nat)
  {
    from < colon < |text| && IsSchemeLetter(text[from]) && SchemeChars(text, from + 1, colon) && text[colon] == ':'
  }

  /** The regular expression matches at `from`. */
  ghost predicate MatchesAt(text: string, from: nat)
  {
    BodyAt(text, from) || exists colon: nat :: SchemeAt(text, from, colon) && BodyAt(text, colon + 1)
  }

  /** `from` is where the leftmost match starts. */
  ghost predicate LeftmostMatch(text: string, from: nat)
  {
    MatchesAt(text, from) && forall k: nat | k < from :: !MatchesAt(text, k)
  }

  predicate SlashesAt(text: string, at: nat)
  {
    at + 1 < |text| && text[at] == '/' && text[at + 1] == '/'
  }

  /** `text.find("//", start)` */
  method FindSlashes(text: string, start: nat) returns (r: Option<nat>)
    ensures r.Some? ==> start <= r.value && SlashesAt(text, r.value)
    ensures forall k: nat | start <= k && (r.Some? ==> k < r.value) :: !SlashesAt(text, k)
  {
    var k := start;
    while k + 1 < |text|
      invariant start <= k
      invariant forall j: nat | start <= j < k :: !SlashesAt(text, j)
    {
      if SlashesAt(text, k) {
        return Some(k);
      }
      k := k + 1;
    }
    return None;
  }

  /** Widen `//` at `slash` over a `scheme:` before it: the earliest start of a match
      that ends in these slashes. */
  method SchemeStart(text: string, slash: nat) returns (r: nat)
    requires BodyAt(text, slash)
    ensures r == slash || (r + 1 < slash && SchemeAt(text, r, slash - 1))
    ensures slash > 0 ==> NoSchemeBefore(text, r, slash - 1)
  {
    if slash < 2 || text[slash - 1] != ':' || !IsSchemeChar(text[slash - 2]) {
      return slash;
    }
    var run := slash - 2;
    while run > 0 && IsSchemeChar(text[run - 1])
      invariant 0 <= run <= slash - 2 && SchemeChars(text, run, slash - 1)
    {
      run := run - 1;
    }
    var index := run;
    while index < slash - 1
      invariant run <= index <= slash - 1
      invariant forall k | run <= k < index :: !IsSchemeLetter(text[k])
    {
      if IsSchemeLetter(text[index]) {
        NoSchemeBeforeRun(text, run, slash - 1);
        return index;
      }
      index := index + 1;
    }
    NoSchemeBeforeRun(text, run, slash - 1);
    return slash;
  }

  ghost predicate NoSchemeBefore(text: string, limit: nat, colon: nat)
  {
    forall k: nat | k < limit :: !SchemeAt(text, k, colon)
  }

  lemma {:induction false} NoSchemeBeforeRun(text: string, run: nat, colon: nat)
    requires run < colon < |text| && (run == 0 || !IsSchemeChar(text[run - 1]))
    ensures NoSchemeBefore(text, run, colon)
  {
    forall k: nat | k < run ensures !SchemeAt(text, k, colon) {
      if SchemeAt(text, k, colon) {
        assert IsSchemeChar(text[run - 1]);
      }
    }
  }

  /** A match that begins at or before the first good slashes ends in them. */
  lemma {:induction false} MatchUsesFirstSlashes(text: string, slash: nat, k: nat)
    requires BodyAt(text, slash) && forall j: nat | j < slash :: !BodyAt(text, j)
    requires k < slash && MatchesAt(text, k)
    ensures SchemeAt(text, k, slash - 1)
  {
    var colon: nat :| SchemeAt(text, k, colon) && BodyAt(text, colon + 1);
    assert colon + 1 <= slash;
  }

  /** The scan returns the start of the leftmost match, and nothing exactly when the
      expression matches nowhere. */
  method UrlStart(text: string) returns (r: Option<nat>)
    ensures r.Some? ==> LeftmostMatch(text, r.value)
    ensures r.None? ==> forall k: nat :: !MatchesAt(text, k)
  {
    var start := FindSlashes(text, 0);
    assert forall k: nat | BodyAt(text, k) :: SlashesAt(text, k);
    while start.Some?
      invariant start.Some? ==> SlashesAt(text, start.value)
      invariant forall k: nat | BodyAt(text, k) :: start.Some? && start.value <= k
      decreases if start.Some? then |text| - start.value else -1
    {
      var slash := start.value;
      if slash + 2 < |text| && IsBodyChar(text[slash + 2]) {
        var from := SchemeStart(text, slash);
        forall k: nat | k < from ensures !MatchesAt(text, k) {
          if MatchesAt(text, k) {
            MatchUsesFirstSlashes(text, slash, k);
          }
        }
        assert from < slash ==> BodyAt(text, (slash - 1) + 1);
        return Some(from);
      }
      var next := FindSlashes(text, slash + 1);
      assert forall k: nat | BodyAt(text, k) :: SlashesAt(text, k);
      start := next;
    }
    return None;
  }

  /** The white space of the expression. */
  lemma {:induction false} SpacesAre(c: char)
    ensures IsSpace(c) <==>
      c as int in {9, 10, 11, 12, 13, 28, 29, 30, 31, 32, 133, 160, 5760, 8192, 8193, 8194, 8195, 8196, 8197, 8198,
                   8199, 8200, 8201, 8202, 8232, 8233, 8239, 8287, 12288}
  {
  }

  /** `scheme://body` is found from the scheme on, and `://body` from the slashes on. */
  lemma {:induction false} SchemesCount(c: char, d: char)
    requires 'a' <= c <= 'z' && IsBodyChar(d)
    ensures LeftmostMatch([c, ':', '/', '/', d], 0)
    ensures LeftmostMatch([':', '/', '/', d], 1)
  {
    var text := [c, ':', '/', '/', d];
    assert SchemeAt(text, 0, 1) && BodyAt(text, 1 + 1);
    var bare := [':', '/', '/', d];
    assert BodyAt(bare, 1) && !MatchesAt(bare, 0);
  }
}
