/** The audio formats the player accepts, recognised by file-name
    extension. The backend matches extensions case-sensitively; the
    frontend lowercases the name first (ASCII letters only). */
module MusicFiles {

  const Extensions: seq<string> := [".mp3", ".flac", ".wav", ".ogg"]

  predicate StartsWith(s: string, prefix: string) {
    |prefix| <= |s| && s[..|prefix|] == prefix
  }

  predicate EndsWith(s: string, suffix: string) {
    |suffix| <= |s| && s[|s| - |suffix|..] == suffix
  }

  /** The name ends with one of the supported extensions, as written. */
  predicate HasMusicExtension(name: string) {
    exists k :: 0 <= k < |Extensions| && EndsWith(name, Extensions[k])
  }

  function LowerChar(c: char): char {
    if 'A' <= c <= 'Z' then (c as int - 'A' as int + 'a' as int) as char else c
  }

  /** Lowercases the ASCII letters of `s`, leaving every other character. */
  function LowerCase(s: string): (r: string)
    ensures |r| == |s|
    ensures forall k :: 0 <= k < |s| ==> r[k] == LowerChar(s[k])
  {
    if |s| == 0 then [] else [LowerChar(s[0])] + LowerCase(s[1..])
  }

  lemma LowerCaseSlice(s: string, from: nat)
    requires from <= |s|
    ensures LowerCase(s)[from..] == LowerCase(s[from..])
  {
  }

  /** Lowercasing leaves a string without ASCII capitals as it is. */
  lemma LowerCaseKeepsLower(s: string)
    requires forall k :: 0 <= k < |s| ==> !('A' <= s[k] <= 'Z')
    ensures LowerCase(s) == s
  {
  }

  /** No supported extension has an ASCII capital. */
  lemma {:induction false} ExtensionIsLower(k: nat)
    requires k < |Extensions|
    ensures forall i :: 0 <= i < |Extensions[k]| ==> !('A' <= Extensions[k][i] <= 'Z')
  {
    assert k == 0 || k == 1 || k == 2 || k == 3;
  }

  /** Lowercasing a name keeps a suffix that has no capitals. */
  lemma {:induction false} EndsWithSurvivesLowerCase(name: string, ext: string)
    requires EndsWith(name, ext)
    requires forall i :: 0 <= i < |ext| ==> !('A' <= ext[i] <= 'Z')
    ensures EndsWith(LowerCase(name), ext)
  {
    LowerCaseSlice(name, |name| - |ext|);
    LowerCaseKeepsLower(ext);
  }

  /** The extensions have no uppercase letters, so lowercasing a name keeps
      every extension it already ends with: whatever the backend marks as
      playable, the frontend classifies as a music file. */
  lemma {:induction false} MatchSurvivesLowerCase(name: string)
    requires HasMusicExtension(name)
    ensures HasMusicExtension(LowerCase(name))
  {
    var k :| 0 <= k < |Extensions| && EndsWith(name, Extensions[k]);
    ExtensionIsLower(k);
    EndsWithSurvivesLowerCase(name, Extensions[k]);
  }
}
