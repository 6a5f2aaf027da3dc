/** The frontend's three-way classification of a file: directories by the
    presence of a children list, music files by the lowercased name's
    extension, and plain files for everything else. */
module FileTypes {
  import opened Wrappers
  import opened MusicFiles

  datatype FileType = PlainFile | MusicFile | Directory

  /** Classifies a file from whether it is a directory and its optional
      name; a missing or empty name makes a non-directory a plain file. */
  function GetFileType(isDirectory: bool, name: Option<string>): (t: FileType)
    ensures t == Directory <==> isDirectory
    ensures t == MusicFile <==>
              !isDirectory && name.Some? && name.value != "" && HasMusicExtension(LowerCase(name.value))
    ensures !isDirectory && (name.None? || name.value == "") ==> t == PlainFile
  {
    if isDirectory then Directory
    else if name.Some? && name.value != "" && HasMusicExtension(LowerCase(name.value)) then MusicFile
    else PlainFile
  }

  /** Two names that agree up to ASCII case lower to the same string. */
  lemma {:induction false} LowerCaseAgrees(a: string, b: string)
    requires LowerCase(a) == LowerCase(b)
    ensures |a| == |b|
  {
    assert |LowerCase(a)| == |a| && |LowerCase(b)| == |b|;
  }

  /** Classification ignores ASCII case: names that lowercase alike get the
      same file type. */
  lemma {:induction false} CaseInsensitive(isDirectory: bool, a: string, b: string)
    requires LowerCase(a) == LowerCase(b)
    ensures GetFileType(isDirectory, Some(a)) == GetFileType(isDirectory, Some(b))
  {
    LowerCaseAgrees(a, b);
  }

  /** A file the backend marks playable (its name ends with a supported
      extension as written) is a music file to the frontend. */
  lemma {:induction false} PlayableIsMusicFile(name: string)
    requires HasMusicExtension(name)
    ensures GetFileType(false, Some(name)) == MusicFile
  {
    MatchSurvivesLowerCase(name);
  }
}
