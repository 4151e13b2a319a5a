/** The arguments of a reservation: which ones are accepted, and the text they become. */
module Reservation {
  import opened Common
  import opened Text

  datatype Args = Args(runId: string, outputDir: string)

  predicate IsNameChar(c: char) {
    || 'A' <= c <= 'Z' || 'a' <= c <= 'z' || '0' <= c <= '9'
    || c == '.' || c == '_' || c == ':' || c == '+' || c == '=' || c == '@' || c == '-'
  }

  predicate IsPathText(s: string) { forall i | 0 <= i < |s| :: IsNameChar(s[i]) || s[i] == '/' }

  predicate IsAlias(part: string) { part == "" || part == "." || part == ".." }

  predicate NoAlias(parts: seq<string>) { forall i | 0 <= i < |parts| :: !IsAlias(parts[i]) }

  /** The checks on a path that a reservation serialises, in their order. */
  predicate ValidPath(s: string) {
    && s != "" && s[0] == '/' && s != "/"
    && IsPathText(s[1..])
    && s[|s| - 1] != '/'
    && NoAlias(Split(s, '/')[1..])
  }

  predicate WellFormed(a: Args) { IsHex64(a.runId) && ValidPath(a.outputDir) }

  /** What the command line demands of `--output-dir`, besides that nothing exists there. */
  predicate Admitted(s: string) { '\0' !in s && s != "" && s[0] == '/' }

  /** The file's text. */
  function Raw(a: Args): (s: string)
    ensures s != ""
  {
    "run_id=" + a.runId + "\noutput_dir=" + a.outputDir + "\n"
  }

  // ----- valid paths from their components -----

  predicate IsComponent(part: string) {
    !IsAlias(part) && forall i | 0 <= i < |part| :: IsNameChar(part[i])
  }

  ghost predicate Spells(s: string, parts: seq<string>) {
    |parts| >= 1 && (forall i | 0 <= i < |parts| :: IsComponent(parts[i])) && s == "/" + Joined(parts, '/')
  }

  lemma {:induction false} JoinedText(parts: seq<string>)
    requires |parts| >= 1 && forall i | 0 <= i < |parts| :: IsComponent(parts[i])
    ensures var t := Joined(parts, '/'); t != "" && IsPathText(t) && t[|t| - 1] != '/'
  {
    if |parts| > 1 { JoinedText(parts[1..]); }
  }

  lemma {:induction false} SplitText(parts: seq<string>)
    requires |parts| >= 1 && Without(parts, '/') && NoAlias(parts) && IsPathText(Joined(parts, '/'))
    ensures forall i | 0 <= i < |parts| :: IsComponent(parts[i])
  {
    var t := Joined(parts, '/');
    if |parts| > 1 {
      var rest := parts[1..];
      assert t[|parts[0]| + 1..] == Joined(rest, '/');
      SplitText(rest);
    }
    assert t[..|parts[0]|] == parts[0];
    assert IsComponent(parts[0]);
    assert forall i | 1 <= i < |parts| :: parts[i] == parts[1..][i - 1];
  }

  lemma SplitRooted(s: string)
    requires s != "" && s[0] == '/'
    ensures Split(s, '/')[1..] == Split(s[1..], '/')
  {
    assert s == "" + ['/'] + s[1..];
    SplitCons("", '/', s[1..]);
  }

  lemma ValidIsSpelled(s: string)
    requires ValidPath(s)
    ensures Spells(s, Split(s, '/')[1..])
  {
    SplitRooted(s);
    JoinedSplit(s[1..], '/');
    SplitText(Split(s[1..], '/'));
  }

  lemma SpelledIsValid(s: string, parts: seq<string>)
    requires Spells(s, parts)
    ensures ValidPath(s) && Split(s, '/')[1..] == parts
  {
    JoinedText(parts);
    SplitJoined(parts, '/');
    assert s[1..] == Joined(parts, '/');
    SplitRooted(s);
  }

  /** A path is valid exactly when it is a slash and components joined by slashes. */
  lemma ValidIffSpelled(s: string)
    ensures ValidPath(s) <==> exists parts: seq<string> :: Spells(s, parts)
  {
    if ValidPath(s) { ValidIsSpelled(s); }
    if parts: seq<string> :| Spells(s, parts) { SpelledIsValid(s, parts); }
  }

  /** Every reservable directory is admitted by the command line. */
  lemma ReservableIsAdmitted(s: string)
    requires ValidPath(s)
    ensures Admitted(s)
  {
    forall i | 0 <= i < |s|
      ensures s[i] != '\0'
    {
      if i > 0 { assert s[i] == s[1..][i - 1]; }
    }
  }

  lemma OtherCharIsRefused(s: string, i: nat)
    requires 0 < i < |s| && !IsNameChar(s[i]) && s[i] != '/'
    ensures !ValidPath(s)
  {
    assert s[i] == s[1..][i - 1];
  }

  const SPACED: string := "/out dir"

  /** The command line admits a directory that no reservation accepts. */
  lemma SpacedIsRefused()
    ensures Admitted(SPACED) && !ValidPath(SPACED)
  {
    OtherCharIsRefused(SPACED, 4);
  }

  /** The file's text tells the run and its directory. */
  lemma RawDetermines(a: Args, b: Args)
    requires WellFormed(a) && WellFormed(b) && Raw(a) == Raw(b)
    ensures a == b
  {
    var (s, t) := (Raw(a), Raw(b));
    assert s[7..71] == a.runId && t[7..71] == b.runId;
    assert s[83..|s| - 1] == a.outputDir && t[83..|t| - 1] == b.outputDir;
  }
}
