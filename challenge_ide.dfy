/** The editor panel of a challenge: the language mode chosen from a file's
    name, the view of the active file, and edits forwarded to the file store. */
module ChallengeIde {
  import opened Wrappers

  // ---------------------------------------------------------------------
  // Language mode

  /** `toLowerCase` on one character, for the ASCII letters. */
  function AsciiLower(c: char): (l: char)
    ensures 'A' <= c <= 'Z' ==> l as int == c as int + 32
    ensures !('A' <= c <= 'Z') ==> l == c
  {
    if 'A' <= c <= 'Z' then (c as int + 32) as char else c
  }

  function Lowercase(s: string): (r: string)
    ensures |r| == |s| && forall i :: 0 <= i < |s| ==> r[i] == AsciiLower(s[i])
  {
    seq(|s|, i requires 0 <= i < |s| => AsciiLower(s[i]))
  }

  /** The position of the last '.' in `s`, or -1 when there is none. */
  function LastDot(s: string): (k: int)
    ensures -1 <= k < |s|
    ensures k >= 0 ==> s[k] == '.'
    ensures forall i :: k < i < |s| ==> s[i] != '.'
  {
    if s == [] then -1
    else if s[|s| - 1] == '.' then |s| - 1
    else LastDot(s[..|s| - 1])
  }

  /** The last '.' is the one position with a '.' and none after it. */
  lemma {:induction false} LastDotIsUnique(s: string, k: int)
    requires -1 <= k < |s|
    requires k >= 0 ==> s[k] == '.'
    requires forall i :: k < i < |s| ==> s[i] != '.'
    ensures LastDot(s) == k
  {
  }

  /** `filename.split(".").pop()`: the text after the last '.', or all of
      `s` when it has none. */
  function LastSegment(s: string): (r: string)
    ensures |r| <= |s| && r == s[|s| - |r|..]
    ensures forall i :: 0 <= i < |r| ==> r[i] != '.'
    ensures |r| == |s| || s[|s| - |r| - 1] == '.'
  {
    s[LastDot(s) + 1..]
  }

  /** The seven modes the editor is ever given. */
  predicate IsEditorLanguage(lang: string) {
    lang in {"html", "css", "javascript", "typescript", "json", "markdown", "plaintext"}
  }

  /** The `switch` over the lowercased extension. */
  function ExtensionLanguage(ext: string): (lang: string)
    ensures IsEditorLanguage(lang)
    ensures lang == "plaintext" <==> ext !in {"html", "css", "js", "ts", "json", "md"}
    ensures ext == "html" ==> lang == "html"
    ensures ext == "css" ==> lang == "css"
    ensures ext == "js" ==> lang == "javascript"
    ensures ext == "ts" ==> lang == "typescript"
    ensures ext == "json" ==> lang == "json"
    ensures ext == "md" ==> lang == "markdown"
  {
    if ext == "html" then "html"
    else if ext == "css" then "css"
    else if ext == "js" then "javascript"
    else if ext == "ts" then "typescript"
    else if ext == "json" then "json"
    else if ext == "md" then "markdown"
    else "plaintext"
  }

  /** `getLanguageFromFilename`: the mode for the lowercased text after the
      last '.'. */
  function LanguageFromFilename(filename: string): (lang: string)
    ensures IsEditorLanguage(lang)
  {
    ExtensionLanguage(Lowercase(LastSegment(filename)))
  }

  /** What follows the last dot is the extension, whatever comes before. */
  lemma {:induction false} LastSegmentAfterDot(base: string, ext: string)
    requires forall i :: 0 <= i < |ext| ==> ext[i] != '.'
    ensures LastSegment(base + "." + ext) == ext
  {
    var s := base + "." + ext;
    assert forall i :: |base| < i < |s| ==> s[i] == ext[i - |base| - 1];
    LastDotIsUnique(s, |base|);
    assert s[|base| + 1..] == ext;
  }

  /** A name that has no dot is its own extension. */
  lemma {:induction false} NoDotIsOwnExtension(s: string)
    requires forall i :: 0 <= i < |s| ==> s[i] != '.'
    ensures LastSegment(s) == s
  {
    LastDotIsUnique(s, -1);
  }

  /** The mode of `base.ext` is that of the extension `ext`, in any case. */
  lemma {:induction false} LanguageAfterLastDot(base: string, ext: string)
    requires forall i :: 0 <= i < |ext| ==> ext[i] != '.'
    ensures LanguageFromFilename(base + "." + ext) == ExtensionLanguage(Lowercase(ext))
  {
    LastSegmentAfterDot(base, ext);
  }

  /** Lowercasing never makes or removes a dot, so the last segment of the
      lowercased name is the lowercased last segment. */
  lemma {:induction false} LastSegmentOfLowercase(s: string)
    ensures LastSegment(Lowercase(s)) == Lowercase(LastSegment(s))
  {
    LastDotOfLowercase(s);
    var k := LastDot(s);
    assert Lowercase(s)[k + 1..] == Lowercase(s[k + 1..]);
  }

  lemma {:induction false} LastDotOfLowercase(s: string)
    ensures LastDot(Lowercase(s)) == LastDot(s)
  {
    var t := Lowercase(s);
    assert forall i :: 0 <= i < |s| ==> (t[i] == '.' <==> s[i] == '.');
    LastDotIsUnique(t, LastDot(s));
  }

  /** The mode does not depend on the case of the name. */
  lemma {:induction false} LanguageIgnoresCase(filename: string)
    ensures LanguageFromFilename(Lowercase(filename)) == LanguageFromFilename(filename)
  {
    LastSegmentOfLowercase(filename);
    var e := LastSegment(filename);
    assert Lowercase(Lowercase(e)) == Lowercase(e);
  }

  /** The spellings the examples below are made of. */
  lemma {:induction false} ExampleSpellings()
    ensures "Index" + "." + "HTML" == "Index.HTML"
    ensures "a.min" + "." + "js" == "a.min.js"
    ensures Lowercase("HTML") == "html" && Lowercase("js") == "js"
    ensures Lowercase("JS") == "js" && Lowercase("Makefile") == "makefile"
  {
    var h := Lowercase("HTML");
    assert h[0] == 'h' && h[1] == 't' && h[2] == 'm' && h[3] == 'l';
    var j := Lowercase("JS");
    assert j[0] == 'j' && j[1] == 's';
    var m := Lowercase("Makefile");
    assert m[0] == 'm';
  }

  /** Names as the editor sees them: the case of the extension does not
      matter, and only the last dot counts. */
  lemma {:induction false} UpperCaseHtmlIsHtml()
    ensures LanguageFromFilename("Index.HTML") == "html"
  {
    ExampleSpellings();
    LanguageAfterLastDot("Index", "HTML");
  }

  lemma {:induction false} MinifiedScriptIsJavascript()
    ensures LanguageFromFilename("a.min.js") == "javascript"
  {
    ExampleSpellings();
    LanguageAfterLastDot("a.min", "js");
  }

  /** A name without a dot is read as an extension. */
  lemma {:induction false} BareJsIsJavascript()
    ensures LanguageFromFilename("JS") == "javascript"
  {
    ExampleSpellings();
    NoDotIsOwnExtension("JS");
  }

  lemma {:induction false} MakefileIsPlaintext()
    ensures LanguageFromFilename("Makefile") == "plaintext"
  {
    var name := "Makefile";
    assert forall i :: 0 <= i < |name| ==> name[i] != '.' by {
      assert name == ['M', 'a', 'k', 'e', 'f', 'i', 'l', 'e'];
    }
    NoDotIsOwnExtension(name);
    assert |Lowercase(name)| == 8;
  }

  /** A trailing dot leaves an empty extension. */
  lemma {:induction false} TrailingDotIsPlaintext(base: string)
    ensures LanguageFromFilename(base + ".") == "plaintext"
  {
    LastDotIsUnique(base + ".", |base|);
    assert LastSegment(base + ".") == [];
  }

  // ---------------------------------------------------------------------
  // The file store and the editor view

  /** A stored file: its text, which may be missing, and whether it is read-only. */
  datatype FileEntry = FileEntry(content: Option<string>, readonly: bool)

  /** The file store the editor works on, reduced to its files and the name
      of the active one. */
  class FileSystem {
    var files: map<string, FileEntry>
    var activeFile: Option<string>

    constructor (files: map<string, FileEntry>, activeFile: Option<string>)
      ensures this.files == files && this.activeFile == activeFile
    {
      this.files := files;
      this.activeFile := activeFile;
    }

    /** Stores new text for a known, writable file; for an unknown or
        read-only one it changes nothing and says so. */
    method UpdateFileContent(filename: string, content: string) returns (updated: bool)
      modifies this
      ensures updated <==> filename in old(files) && !old(files)[filename].readonly
      ensures files == if updated then old(files)[filename := old(files)[filename].(content := Some(content))] else old(files)
      ensures activeFile == old(activeFile)
    {
      updated := filename in files && !files[filename].readonly;
      if updated {
        files := files[filename := files[filename].(content := Some(content))];
      }
    }
  }

  /** The editor panel's own state: which file it shows, the text it shows,
      and whether it refuses edits. */
  class Ide {
    const fileSystem: FileSystem
    var activeFilename: Option<string>
    var activeFileContent: string
    var isReadOnly: bool

    constructor (fileSystem: FileSystem)
      ensures this.fileSystem == fileSystem
      ensures activeFilename == None && activeFileContent == "" && isReadOnly == false
    {
      this.fileSystem := fileSystem;
      activeFilename := None;
      activeFileContent := "";
      isReadOnly := false;
    }

    /** The view shows the stored state of its file: when that file is in the
        store, the view carries its read-only flag. */
    predicate Synced()
      reads this, fileSystem
    {
      activeFilename.Some? && activeFilename.value in fileSystem.files ==>
        fileSystem.files[activeFilename.value].readonly == isReadOnly
    }

    /** The mount effect: a non-empty active file name of the store becomes the
        view's name, and its text and read-only flag are loaded when the file exists. */
    method InitialSync()
      modifies this
      ensures fileSystem.activeFile.None? || fileSystem.activeFile == Some("") ==>
        activeFilename == old(activeFilename) && activeFileContent == old(activeFileContent) && isReadOnly == old(isReadOnly)
      ensures fileSystem.activeFile.Some? && fileSystem.activeFile != Some("") ==>
        && activeFilename == fileSystem.activeFile
        && (fileSystem.activeFile.value in fileSystem.files ==>
              activeFileContent == fileSystem.files[fileSystem.activeFile.value].content.GetOr("")
              && isReadOnly == fileSystem.files[fileSystem.activeFile.value].readonly)
        && (fileSystem.activeFile.value !in fileSystem.files ==>
              activeFileContent == old(activeFileContent) && isReadOnly == old(isReadOnly))
    {
      var currentActiveFile := fileSystem.activeFile;
      if currentActiveFile.Some? && currentActiveFile.value != "" {
        activeFilename := currentActiveFile;
        if currentActiveFile.value in fileSystem.files {
          var currentFileData := fileSystem.files[currentActiveFile.value];
          activeFileContent := currentFileData.content.GetOr("");
          isReadOnly := currentFileData.readonly;
        }
      }
    }

    /** The active-file-change handler: an event naming a stored file shows
        that file; one naming an unknown file changes nothing. */
    method OnActiveFileChange(filename: string)
      modifies this
      ensures filename in fileSystem.files ==>
        && activeFilename == Some(filename)
        && activeFileContent == fileSystem.files[filename].content.GetOr("")
        && isReadOnly == fileSystem.files[filename].readonly
        && Synced()
      ensures filename !in fileSystem.files ==>
        activeFilename == old(activeFilename) && activeFileContent == old(activeFileContent) && isReadOnly == old(isReadOnly)
    {
      if filename in fileSystem.files {
        var currentFileData := fileSystem.files[filename];
        activeFilename := Some(filename);
        activeFileContent := currentFileData.content.GetOr("");
        isReadOnly := currentFileData.readonly;
      }
    }

    /** `handleEditorChange`: an edit is taken only when a file is shown, it
        is writable, and the new text is present and non-empty; then the view
        shows it and the store is asked to keep it. */
    method HandleEditorChange(newContent: Option<string>) returns (forwarded: bool)
      modifies this, fileSystem
      ensures activeFilename == old(activeFilename) && isReadOnly == old(isReadOnly)
      ensures forwarded <==>
        && old(activeFilename).Some? && old(activeFilename).value != ""
        && !old(isReadOnly)
        && newContent.Some? && newContent.value != ""
      ensures !forwarded ==>
        && activeFileContent == old(activeFileContent)
        && fileSystem.files == old(fileSystem.files)
      ensures forwarded ==>
        && activeFileContent == newContent.value
        && fileSystem.files == (
             if activeFilename.value in old(fileSystem.files) && !old(fileSystem.files)[activeFilename.value].readonly
             then old(fileSystem.files)[activeFilename.value := old(fileSystem.files)[activeFilename.value].(content := Some(newContent.value))]
             else old(fileSystem.files))
      ensures forwarded && old(Synced()) && activeFilename.value in fileSystem.files ==>
        fileSystem.files[activeFilename.value].content == Some(newContent.value)
      ensures fileSystem.activeFile == old(fileSystem.activeFile)
      ensures old(Synced()) ==> Synced()
    {
      forwarded := activeFilename.Some? && activeFilename.value != "" && !isReadOnly
                   && newContent.Some? && newContent.value != "";
      if forwarded {
        activeFileContent := newContent.value;
        var _ := fileSystem.UpdateFileContent(activeFilename.value, newContent.value);
      }
    }
  }
}
