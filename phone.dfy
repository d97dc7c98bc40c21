/**
 * The phone pattern `^(0[1-9])(?:[ _.-]?(\d{2})){4}$` applied with Python's
 * `re.match`. A number is described by its parts (`PhoneParts`), `Render`
 * spells the strings the pattern denotes, and `Parse` is the matcher;
 * `Matches` is proved to hold exactly of the rendered strings.
 *
 * `$` without MULTILINE also matches just before a final newline, so a
 * rendering may end with one `\n`.
 */
module Phone {
  import opened Wrappers
  import opened Strings

  predicate IsNonZeroDigit(c: char) {
    '1' <= c <= '9'
  }

  /** The character class `[ _.-]`. */
  predicate IsSeparator(c: char) {
    c == ' ' || c == '_' || c == '.' || c == '-'
  }

  /** One `[ _.-]?(\d{2})` group. */
  datatype Group = Group(sep: Option<char>, hi: char, lo: char)

  /** `0`, the second digit, the groups, and whether a final newline follows. */
  datatype PhoneParts = PhoneParts(second: char, groups: seq<Group>, newline: bool)

  predicate GroupWellFormed(g: Group) {
    (g.sep.Some? ==> IsSeparator(g.sep.value)) && IsDigit(g.hi) && IsDigit(g.lo)
  }

  predicate GroupsWellFormed(gs: seq<Group>) {
    forall i :: 0 <= i < |gs| ==> GroupWellFormed(gs[i])
  }

  predicate WellFormed(p: PhoneParts) {
    IsNonZeroDigit(p.second) && |p.groups| == 4 && GroupsWellFormed(p.groups)
  }

  function RenderGroup(g: Group): string {
    (if g.sep.Some? then [g.sep.value] else []) + [g.hi, g.lo]
  }

  function RenderGroups(gs: seq<Group>): string {
    if gs == [] then "" else RenderGroup(gs[0]) + RenderGroups(gs[1..])
  }

  /** The string a well-formed `PhoneParts` stands for. */
  function Render(p: PhoneParts): string {
    ['0', p.second] + RenderGroups(p.groups) + (if p.newline then "\n" else "")
  }

  /**
   * Matches `n` more groups and then the end anchor. The optional separator
   * is tried first; since a separator is never a digit, no other choice can
   * succeed, so the match is deterministic.
   */
  function ParseGroups(s: string, n: nat): Option<(seq<Group>, bool)>
    decreases n
  {
    if n == 0 then
      if s == "" then Some(([], false))
      else if s == "\n" then Some(([], true))
      else None
    else if |s| >= 3 && IsSeparator(s[0]) && IsDigit(s[1]) && IsDigit(s[2]) then
      match ParseGroups(s[3..], n - 1)
      case Some((gs, nl)) => Some(([Group(Some(s[0]), s[1], s[2])] + gs, nl))
      case None => None
    else if |s| >= 2 && IsDigit(s[0]) && IsDigit(s[1]) then
      match ParseGroups(s[2..], n - 1)
      case Some((gs, nl)) => Some(([Group(None, s[0], s[1])] + gs, nl))
      case None => None
    else None
  }

  /** `phone_re.match(s)`, returning the parts it recognised. */
  function Parse(s: string): Option<PhoneParts> {
    if |s| >= 2 && s[0] == '0' && IsNonZeroDigit(s[1]) then
      match ParseGroups(s[2..], 4)
      case Some((gs, nl)) => Some(PhoneParts(s[1], gs, nl))
      case None => None
    else None
  }

  /** `phone_re.match(s) is not None`. */
  predicate Matches(s: string) {
    Parse(s).Some?
  }

  lemma {:induction false} ParseGroupsSound(s: string, n: nat)
    requires ParseGroups(s, n).Some?
    ensures var (gs, nl) := ParseGroups(s, n).value;
      |gs| == n && GroupsWellFormed(gs) && s == RenderGroups(gs) + (if nl then "\n" else "")
  {
    if n > 0 {
      var (gs, nl) := ParseGroups(s, n).value;
      var withSep := |s| >= 3 && IsSeparator(s[0]) && IsDigit(s[1]) && IsDigit(s[2]);
      var k := if withSep then 3 else 2;
      var g := if withSep then Group(Some(s[0]), s[1], s[2]) else Group(None, s[0], s[1]);
      var rest := s[k..];
      ParseGroupsSound(rest, n - 1);
      var (gs', nl') := ParseGroups(rest, n - 1).value;
      assert gs == [g] + gs' && nl == nl';
      assert RenderGroup(g) == s[..k];
      assert RenderGroups(gs) == RenderGroup(g) + RenderGroups(gs') by {
        assert gs[0] == g && gs[1..] == gs';
      }
      assert s == s[..k] + rest;
      forall i | 0 <= i < |gs|
        ensures GroupWellFormed(gs[i])
      {
        if i > 0 {
          assert gs[i] == gs'[i - 1];
        }
      }
    }
  }

  lemma {:induction false} ParseGroupsComplete(gs: seq<Group>, nl: bool)
    requires GroupsWellFormed(gs)
    ensures ParseGroups(RenderGroups(gs) + (if nl then "\n" else ""), |gs|) == Some((gs, nl))
  {
    var tail := if nl then "\n" else "";
    if gs != [] {
      ParseGroupsComplete(gs[1..], nl);
      var g := gs[0];
      assert GroupWellFormed(g);
      var s := RenderGroups(gs) + tail;
      var k := if g.sep.Some? then 3 else 2;
      assert s == RenderGroup(g) + (RenderGroups(gs[1..]) + tail);
      assert s[k..] == RenderGroups(gs[1..]) + tail;
      assert [gs[0]] + gs[1..] == gs;
    }
  }

  /** Whatever the matcher accepts is the rendering of well-formed parts. */
  lemma ParseSound(s: string)
    requires Matches(s)
    ensures WellFormed(Parse(s).value) && Render(Parse(s).value) == s
  {
    ParseGroupsSound(s[2..], 4);
    assert s == s[..2] + s[2..];
  }

  /** The matcher accepts every rendering and recovers its parts. */
  lemma ParseComplete(p: PhoneParts)
    requires WellFormed(p)
    ensures Parse(Render(p)) == Some(p)
  {
    ParseGroupsComplete(p.groups, p.newline);
    var s := Render(p);
    assert s[2..] == RenderGroups(p.groups) + (if p.newline then "\n" else "");
  }

  /** The language of the pattern, both directions. */
  lemma MatchesIffRendered(s: string)
    ensures Matches(s) <==> exists p :: WellFormed(p) && Render(p) == s
  {
    if Matches(s) {
      ParseSound(s);
    }
    if exists p :: WellFormed(p) && Render(p) == s {
      var p :| WellFormed(p) && Render(p) == s;
      ParseComplete(p);
    }
  }

  lemma {:induction false} RenderGroupsLength(gs: seq<Group>)
    ensures 2 * |gs| <= |RenderGroups(gs)| <= 3 * |gs|
  {
    if gs != [] {
      RenderGroupsLength(gs[1..]);
    }
  }

  /** Every accepted number is ten digits, up to four separators and maybe a newline. */
  lemma MatchesLength(s: string)
    requires Matches(s)
    ensures 10 <= |s| <= 15
    ensures s[0] == '0' && IsNonZeroDigit(s[1])
  {
    ParseSound(s);
    RenderGroupsLength(Parse(s).value.groups);
  }
}
