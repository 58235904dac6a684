/** The assignment editor: the assignment being authored, its files, the
    display options of the embed, and the link that carries them. */
module CreateEmbed {
  import opened Wrappers
  import opened NumberText
  import opened Json
  import opened QueryParams

  // ---------------------------------------------------------------------
  // Files and assignments as values, and as the JSON objects they are

  /** One file of an assignment. `extra` holds the keys of a loaded file
      object that are not one of the five below; they travel with the file. */
  datatype ChallengeFile = ChallengeFile(
    filename: string,
    readonly: bool,
    hidden: bool,
    autoreload: bool,
    content: string,
    extra: map<string, Json>)

  const FILE_KEYS: set<string> := {"filename", "readonly", "hidden", "autoreload", "content"}

  /** The object a file is, key by key. */
  function FileEntries(f: ChallengeFile): map<string, Json> {
    (f.extra - FILE_KEYS)["filename" := JStr(f.filename)]["readonly" := JBool(f.readonly)]
      ["hidden" := JBool(f.hidden)]["autoreload" := JBool(f.autoreload)]["content" := JStr(f.content)]
  }

  function FileJson(f: ChallengeFile): Json {
    JObj(FileEntries(f))
  }

  /** A JSON value that is a file object: an object with the five keys,
      each holding a value of its type. */
  predicate IsFileJson(j: Json) {
    && j.JObj?
    && "filename" in j.fields && j.fields["filename"].JStr?
    && "readonly" in j.fields && j.fields["readonly"].JBool?
    && "hidden" in j.fields && j.fields["hidden"].JBool?
    && "autoreload" in j.fields && j.fields["autoreload"].JBool?
    && "content" in j.fields && j.fields["content"].JStr?
  }

  /** The file a file object denotes; it is that object again. */
  function DecodeFile(j: Json): (f: ChallengeFile)
    requires IsFileJson(j)
    ensures FileJson(f) == j
    ensures f.extra.Keys !! FILE_KEYS
  {
    var m := j.fields;
    var f := ChallengeFile(m["filename"].s, m["readonly"].b, m["hidden"].b, m["autoreload"].b,
                           m["content"].s, m - FILE_KEYS);
    assert FileEntries(f) == m;
    f
  }

  /** A file whose `extra` is clean of the five keys is decoded from its
      own object. */
  lemma {:induction false} DecodeFileJson(f: ChallengeFile)
    requires f.extra.Keys !! FILE_KEYS
    ensures IsFileJson(FileJson(f)) && DecodeFile(FileJson(f)) == f
  {
    assert f.extra - FILE_KEYS == f.extra;
    assert FileEntries(f) - FILE_KEYS == f.extra;
  }

  function FilesJson(files: seq<ChallengeFile>): Json {
    JArr(seq(|files|, i requires 0 <= i < |files| => FileJson(files[i])))
  }

  function DecodeFiles(items: seq<Json>): (files: seq<ChallengeFile>)
    requires forall i :: 0 <= i < |items| ==> IsFileJson(items[i])
    ensures FilesJson(files) == JArr(items)
    ensures forall i :: 0 <= i < |files| ==> files[i].extra.Keys !! FILE_KEYS
  {
    var files := seq(|items|, i requires 0 <= i < |items| => DecodeFile(items[i]));
    assert FilesJson(files).items == items;
    files
  }

  /** The assignment being authored. `extra` holds keys that loaded data
      added beside the six below. */
  datatype CustomAssignment = CustomAssignment(
    title: string,
    assignment: string,
    maxScore: int,
    files: seq<ChallengeFile>,
    mainFile: string,
    previewType: string,
    extra: map<string, Json>)

  const ASSIGNMENT_KEYS: set<string> := {"title", "assignment", "maxScore", "files", "mainFile", "previewType"}

  /** The object an assignment is, key by key; this is what `JSON.stringify`
      is given. */
  function Entries(a: CustomAssignment): map<string, Json> {
    (a.extra - ASSIGNMENT_KEYS)["title" := JStr(a.title)]["assignment" := JStr(a.assignment)]
      ["maxScore" := JNum(a.maxScore)]["files" := FilesJson(a.files)]
      ["mainFile" := JStr(a.mainFile)]["previewType" := JStr(a.previewType)]
  }

  function AssignmentJson(a: CustomAssignment): Json {
    JObj(Entries(a))
  }

  /** Every key of `a` outside the known ones is in `extra`, and no known key is. */
  predicate Clean(a: CustomAssignment) {
    && a.extra.Keys !! ASSIGNMENT_KEYS
    && forall i :: 0 <= i < |a.files| ==> a.files[i].extra.Keys !! FILE_KEYS
  }

  /** Loaded data whose known keys hold values of their fields' types. */
  predicate WellTypedEntries(data: map<string, Json>) {
    && ("title" in data ==> data["title"].JStr?)
    && ("assignment" in data ==> data["assignment"].JStr?)
    && ("maxScore" in data ==> data["maxScore"].JNum?)
    && ("files" in data ==>
          data["files"].JArr? && forall i :: 0 <= i < |data["files"].items| ==> IsFileJson(data["files"].items[i]))
    && ("mainFile" in data ==> data["mainFile"].JStr?)
    && ("previewType" in data ==> data["previewType"].JStr?)
  }

  /** `{...a, ...data}`: the assignment whose object is that of `a` with
      every key of `data` put over it. */
  function MergeOver(a: CustomAssignment, data: map<string, Json>): (r: CustomAssignment)
    requires WellTypedEntries(data)
    ensures r.extra.Keys !! ASSIGNMENT_KEYS
    ensures forall k :: k in data && k !in ASSIGNMENT_KEYS ==> k in r.extra && r.extra[k] == data[k]
    ensures forall k :: k in a.extra && k !in data && k !in ASSIGNMENT_KEYS ==> k in r.extra && r.extra[k] == a.extra[k]
    ensures forall k :: k in r.extra ==> k in data || k in a.extra
  {
    CustomAssignment(
      title := if "title" in data then data["title"].s else a.title,
      assignment := if "assignment" in data then data["assignment"].s else a.assignment,
      maxScore := if "maxScore" in data then data["maxScore"].n else a.maxScore,
      files := if "files" in data then DecodeFiles(data["files"].items) else a.files,
      mainFile := if "mainFile" in data then data["mainFile"].s else a.mainFile,
      previewType := if "previewType" in data then data["previewType"].s else a.previewType,
      extra := (a.extra - ASSIGNMENT_KEYS) + (data - ASSIGNMENT_KEYS))
  }

  /** The merge is the spread: the merged assignment's object is the old
      one's with every key of `data` put over it, and what is not a known
      field lands in `extra`. */
  lemma {:induction false} MergeIsSpread(a: CustomAssignment, data: map<string, Json>)
    requires WellTypedEntries(data)
    ensures Entries(MergeOver(a, data)) == Entries(a) + data
    ensures MergeOver(a, data).extra.Keys !! ASSIGNMENT_KEYS
  {
    var r := MergeOver(a, data);
    var e := Entries(a) + data;
    forall k ensures (k in Entries(r) <==> k in e) && (k in e ==> Entries(r)[k] == e[k]) {
      if k in ASSIGNMENT_KEYS {
        MergeKnownKey(a, data, k);
      } else {
        MergeOtherKey(a, data, k);
      }
    }
  }

  lemma {:induction false} MergeKnownKey(a: CustomAssignment, data: map<string, Json>, k: string)
    requires WellTypedEntries(data)
    requires k in ASSIGNMENT_KEYS
    ensures k in Entries(MergeOver(a, data)) && k in Entries(a)
    ensures Entries(MergeOver(a, data))[k] == (Entries(a) + data)[k]
  {
    var r := MergeOver(a, data);
    if k == "files" {
      assert "files" in data ==> FilesJson(r.files) == data["files"];
    }
  }

  lemma {:induction false} MergeOtherKey(a: CustomAssignment, data: map<string, Json>, k: string)
    requires WellTypedEntries(data)
    requires k !in ASSIGNMENT_KEYS
    ensures k in Entries(MergeOver(a, data)) <==> k in Entries(a) + data
    ensures k in Entries(a) + data ==> Entries(MergeOver(a, data))[k] == (Entries(a) + data)[k]
  {
  }

  /** Merging the same data twice is merging it once. */
  lemma {:induction false} MergeIdempotent(a: CustomAssignment, data: map<string, Json>)
    requires WellTypedEntries(data)
    ensures MergeOver(MergeOver(a, data), data) == MergeOver(a, data)
  {
    var b := MergeOver(a, data);
    assert b.extra - ASSIGNMENT_KEYS == b.extra;
    assert (b.extra - ASSIGNMENT_KEYS) + (data - ASSIGNMENT_KEYS) == b.extra;
  }

  /** Merging nothing changes nothing (a truthy number or boolean spreads to
      no keys at all). */
  lemma {:induction false} MergeNothing(a: CustomAssignment)
    requires a.extra.Keys !! ASSIGNMENT_KEYS
    ensures MergeOver(a, map[]) == a
  {
    assert (a.extra - ASSIGNMENT_KEYS) + (map[] - ASSIGNMENT_KEYS) == a.extra;
  }

  /** Loading the object of a clean assignment over the starting one
      restores exactly that assignment. */
  lemma {:induction false} EditLinkRestoresAssignment(a: CustomAssignment)
    requires Clean(a)
    ensures WellTypedEntries(Entries(a))
    ensures MergeOver(INITIAL_ASSIGNMENT, Entries(a)) == a
  {
    var data := Entries(a);
    var items := data["files"].items;
    forall i | 0 <= i < |items| ensures IsFileJson(items[i]) && DecodeFile(items[i]) == a.files[i] {
      DecodeFileJson(a.files[i]);
    }
    var r := MergeOver(INITIAL_ASSIGNMENT, data);
    assert r.files == a.files;
    assert data - ASSIGNMENT_KEYS == a.extra;
    assert (INITIAL_ASSIGNMENT.extra - ASSIGNMENT_KEYS) + (data - ASSIGNMENT_KEYS) == a.extra;
  }

  // ---------------------------------------------------------------------
  // The starting assignment

  const DEFAULT_HTML: string :=
    "<!DOCTYPE html>\n<html>\n<head>\n  <meta charset=\"UTF-8\">\n  <title>Custom Assignment</title>\n"
    + "  <link rel=\"stylesheet\" href=\"style.css\">\n</head>\n<body>\n  <h1>Custom Assignment</h1>\n"
    + "  <div id=\"app\"></div>\n  <script src=\"script.js\"></script>\n</body>\n</html>"

  const DEFAULT_CSS: string :=
    "body {\n  font-family: sans-serif;\n  margin: 20px;\n  background-color: #f5f5f5;\n}\n\nh1 {\n  color: #333;\n}"

  const DEFAULT_JS: string :=
    "// JavaScript code here\ndocument.addEventListener('DOMContentLoaded', () => {\n"
    + "  const app = document.getElementById('app');\n  app.textContent = 'Hello from JavaScript!';\n});"

  /** An editable, visible, auto-reloading file. */
  function NewFile(filename: string, content: string): ChallengeFile {
    ChallengeFile(filename, readonly := false, hidden := false, autoreload := true, content := content, extra := map[])
  }

  const INITIAL_ASSIGNMENT: CustomAssignment := CustomAssignment(
    title := "Custom Assignment",
    assignment := "<p>Description of your assignment</p>",
    maxScore := 0,
    files := [NewFile("index.html", DEFAULT_HTML), NewFile("style.css", DEFAULT_CSS), NewFile("script.js", DEFAULT_JS)],
    mainFile := "index.html",
    previewType := "html",
    extra := map[])

  // ---------------------------------------------------------------------
  // Pieces of the handlers

  /** Some file of `files` is called `name`. */
  predicate NamesFile(files: seq<ChallengeFile>, name: string) {
    exists i :: 0 <= i < |files| && files[i].filename == name
  }

  /** `files.filter((_, index) => index !== k)`. */
  function RemoveAt(files: seq<ChallengeFile>, k: nat): (r: seq<ChallengeFile>)
    requires k < |files|
    ensures |r| == |files| - 1
    ensures forall i :: 0 <= i < k ==> r[i] == files[i]
    ensures forall i :: k <= i < |r| ==> r[i] == files[i + 1]
  {
    files[..k] + files[k + 1..]
  }

  /** Removing one file keeps every name other than that file's own. */
  lemma {:induction false} RemoveAtKeepsOtherNames(files: seq<ChallengeFile>, k: nat, name: string)
    requires k < |files|
    requires files[k].filename != name
    ensures NamesFile(RemoveAt(files, k), name) <==> NamesFile(files, name)
  {
    var r := RemoveAt(files, k);
    if NamesFile(files, name) {
      var i :| 0 <= i < |files| && files[i].filename == name;
      var j := if i < k then i else i - 1;
      assert r[j] == files[i];
    }
    if NamesFile(r, name) {
      var j :| 0 <= j < |r| && r[j].filename == name;
      var i := if j < k then j else j + 1;
      assert r[j] == files[i];
    }
  }

  /** `parseInt(value) || 0`: the score typed into the number field. */
  function ScoreFromInput(value: string): (score: int)
    ensures score == 0 || ParseInt(value) == Some(score)
    ensures ParseInt(value).Some? ==> score == ParseInt(value).value
    ensures score < 0 ==> '-' in value
  {
    ParseInt(value).GetOr(0)
  }

  /** A decimal number typed into the field, with anything after it that
      is not a digit (a fraction, an exponent), gives the number. */
  lemma {:induction false} ScoreReadsNumber(sign: string, n: nat, rest: string)
    requires sign == "" || sign == "-"
    requires rest == [] || !IsDecimalDigit(rest[0])
    requires n == 0 ==> rest == [] || (rest[0] != 'x' && rest[0] != 'X')
    ensures ScoreFromInput(sign + DecimalString(n) + rest) == if sign == "-" then -(n as int) else n as int
  {
    ParseIntReadsDecimal(sign, n, rest);
  }

  /** A field without any digit (in particular an emptied one) scores 0. */
  lemma {:induction false} ScoreWithoutDigitsIsZero(value: string)
    requires forall i :: 0 <= i < |value| ==> !IsDecimalDigit(value[i])
    ensures ScoreFromInput(value) == 0
  {
    ParseIntWithoutDigits(value);
  }

  /** The four names of the flags the editor writes into a link. */
  predicate IsLinkFlagName(name: string) {
    name == "autoReload" || name == "showAssignment" || name == "isScored" || name == "showEditors"
  }

  /** The shape of an editor link: the `data` parameter, then `false`
      values of flags only. */
  predicate IsLinkShape(q: Query) {
    && |q| > 0 && q[0].0 == "data"
    && forall i :: 1 <= i < |q| ==> q[i].1 == "false" && IsLinkFlagName(q[i].0)
  }

  /** Appending `<flag>=false` keeps the shape and adds just that pair. */
  lemma {:induction false} AppendFlag(q: Query, name: string)
    requires IsLinkShape(q) && IsLinkFlagName(name)
    ensures IsLinkShape(q + [(name, "false")])
    ensures forall x :: x in q + [(name, "false")] <==> x in q || x == (name, "false")
  {
  }

  /** The `<flag>=false` pair the editor writes for `f` when `o` turns it off. */
  function FlagOff(o: EmbedOptions, f: Flag): Query {
    if o.Get(f) then [] else [(FlagName(f), "false")]
  }

  /** The pairs after `data` in an editor link, in the order the page
      appends them. */
  function OffFlags(o: EmbedOptions): Query {
    FlagOff(o, AutoReload) + FlagOff(o, ShowAssignment) + FlagOff(o, IsScored) + FlagOff(o, ShowEditors)
  }

  /** In such a link a flag is on exactly when its `false` was not written. */
  lemma {:induction false} LinkFlag(q: Query, f: Flag)
    requires IsLinkShape(q) && f != ShowPreview
    ensures ParseOptions(q).Get(f) <==> (FlagName(f), "false") !in q
  {
    var name := FlagName(f);
    if (name, "false") in q {
      var r := Lookup(q, name);
      var j :| 0 <= j < |q| && q[j] == (name, r.value);
      assert j != 0;
    }
  }

  /** The preview and the theme are never part of such a link. */
  lemma {:induction false} LinkPreviewAndTheme(q: Query)
    requires IsLinkShape(q)
    ensures ParseOptions(q).showPreview && ParseOptions(q).theme == Dark
    ensures Lookup(q, "data") == Some(q[0].1)
  {
    assert Lookup(q, FlagName(ShowPreview)) == None;
    assert Lookup(q, "theme") == None;
  }

  /** A link made of the `data` parameter followed by `<flag>=false` for
      exactly the flags `o` turns off asks the embed for those options,
      with the preview shown and the dark theme. */
  lemma {:induction false} LinkOptions(q: Query, o: EmbedOptions)
    requires IsLinkShape(q)
    requires forall f :: f != ShowPreview ==> ((FlagName(f), "false") in q <==> !o.Get(f))
    ensures Lookup(q, "data") == Some(q[0].1)
    ensures ParseOptions(q) == EmbedOptions(o.autoReload, o.showAssignment, o.isScored, o.showEditors, true, Dark)
  {
    LinkFlag(q, AutoReload);
    LinkFlag(q, ShowAssignment);
    LinkFlag(q, IsScored);
    LinkFlag(q, ShowEditors);
    LinkPreviewAndTheme(q);
  }

  /** Appending the pair `FlagOff(o, f)` keeps the shape and adds that
      pair exactly when `o` turns `f` off. */
  lemma {:induction false} AppendFlagOff(q: Query, o: EmbedOptions, f: Flag)
    requires IsLinkShape(q) && f != ShowPreview
    ensures IsLinkShape(q + FlagOff(o, f))
    ensures forall x :: x in q + FlagOff(o, f) <==> x in q || (!o.Get(f) && x == (FlagName(f), "false"))
  {
    if !o.Get(f) {
      AppendFlag(q, FlagName(f));
    } else {
      assert q + FlagOff(o, f) == q;
    }
  }

  /** The link the editor builds for `token` and `o` has the editor-link
      shape, and the embed page reads back `o`'s four flags from it, with the
      preview shown and the dark theme. */
  lemma {:induction false} EditorLinkOptions(token: string, o: EmbedOptions)
    ensures IsLinkShape([("data", token)] + OffFlags(o))
    ensures forall f :: f != ShowPreview ==> ((FlagName(f), "false") in [("data", token)] + OffFlags(o) <==> !o.Get(f))
    ensures Lookup([("data", token)] + OffFlags(o), "data") == Some(token)
    ensures ParseOptions([("data", token)] + OffFlags(o)) == EmbedOptions(o.autoReload, o.showAssignment, o.isScored, o.showEditors, true, Dark)
  {
    var q0: Query := [("data", token)];
    var q1 := q0 + FlagOff(o, AutoReload);
    var q2 := q1 + FlagOff(o, ShowAssignment);
    var q3 := q2 + FlagOff(o, IsScored);
    var q4 := q3 + FlagOff(o, ShowEditors);
    assert q4 == q0 + OffFlags(o);
    AppendFlagOff(q0, o, AutoReload);
    AppendFlagOff(q1, o, ShowAssignment);
    AppendFlagOff(q2, o, IsScored);
    AppendFlagOff(q3, o, ShowEditors);
    forall f | f != ShowPreview ensures (FlagName(f), "false") in q4 <==> !o.Get(f) {
      assert f == AutoReload || f == ShowAssignment || f == IsScored || f == ShowEditors;
    }
    LinkOptions(q4, o);
  }

  /** The three text inputs of the details form, by their `name`. */
  datatype InputField = Title | Description | MaxScore

  // ---------------------------------------------------------------------
  // The page's state

  class EmbedCreator {
    var assignment: CustomAssignment
    var displayOptions: EmbedOptions
    var currentFile: nat

    /** The page can render: when there are files, the selected one exists. */
    predicate Renderable()
      reads this
    {
      |assignment.files| > 0 ==> currentFile < |assignment.files|
    }

    /** The main file is one of the files. */
    predicate MainFileListed()
      reads this
    {
      NamesFile(assignment.files, assignment.mainFile)
    }

    /** What the handlers keep: a file remains, the selection is one of the
        files, and the main file is one of them. */
    predicate Valid()
      reads this
    {
      |assignment.files| >= 1 && Renderable() && MainFileListed()
    }

    constructor ()
      ensures assignment == INITIAL_ASSIGNMENT
      ensures displayOptions == DEFAULT_OPTIONS
      ensures currentFile == 0
      ensures Valid() && Clean(assignment)
    {
      assignment := INITIAL_ASSIGNMENT;
      displayOptions := DEFAULT_OPTIONS;
      currentFile := 0;
      assert INITIAL_ASSIGNMENT.files[0].filename == "index.html";
    }

    /** The load effect: truthy data from the URL is spread over the assignment. */
    method LoadCustomData(customData: Json)
      requires Truthy(customData) ==> WellTypedEntries(SpreadEntries(customData))
      modifies this
      ensures assignment == if Truthy(customData) then MergeOver(old(assignment), SpreadEntries(customData))
                            else old(assignment)
      ensures displayOptions == old(displayOptions) && currentFile == old(currentFile)
      ensures currentFile == 0 ==> Renderable()
    {
      if Truthy(customData) {
        assignment := MergeOver(assignment, SpreadEntries(customData));
      }
    }

    /** `handleInputChange` for the title, description and score inputs. */
    method InputChange(field: InputField, value: string)
      modifies this
      ensures assignment == match field
        case Title => old(assignment).(title := value)
        case Description => old(assignment).(assignment := value)
        case MaxScore => old(assignment).(maxScore := ScoreFromInput(value))
      ensures displayOptions == old(displayOptions) && currentFile == old(currentFile)
      ensures old(Renderable()) ==> Renderable()
      ensures old(MainFileListed()) ==> MainFileListed()
      ensures old(Valid()) ==> Valid()
    {
      match field
      case Title => assignment := assignment.(title := value);
      case Description => assignment := assignment.(assignment := value);
      case MaxScore => assignment := assignment.(maxScore := ScoreFromInput(value));
    }

    /** `handleFileContentChange`: the selected file gets the text area's
      value; the text area exists only while the selected file does. */
    method FileContentChange(value: string)
      requires currentFile < |assignment.files|
      modifies this
      ensures assignment == old(assignment).(files := old(assignment.files)[old(currentFile) := old(assignment.files[currentFile]).(content := value)])
      ensures displayOptions == old(displayOptions) && currentFile == old(currentFile)
      ensures Renderable()
      ensures old(MainFileListed()) ==> MainFileListed()
      ensures old(Valid()) ==> Valid()
    {
      var updatedFiles := assignment.files;
      updatedFiles := updatedFiles[currentFile := updatedFiles[currentFile].(content := value)];
      assignment := assignment.(files := updatedFiles);
      if old(MainFileListed()) {
        var i :| 0 <= i < |old(assignment.files)| && old(assignment.files)[i].filename == assignment.mainFile;
        assert assignment.files[i].filename == assignment.mainFile;
      }
    }

    /** `handleAddFile`: the answer to the filename prompt, `None` when it
      was cancelled. An empty answer adds nothing either; otherwise an
      empty file of that name is appended and selected. */
    method AddFile(filename: Option<string>)
      modifies this
      ensures filename == None || filename == Some("") ==>
        assignment == old(assignment) && currentFile == old(currentFile)
      ensures filename.Some? && filename.value != "" ==>
        && assignment == old(assignment).(files := old(assignment.files) + [NewFile(filename.value, "")])
        && currentFile == |old(assignment.files)|
      ensures displayOptions == old(displayOptions)
      ensures old(Renderable()) ==> Renderable()
      ensures old(MainFileListed()) ==> MainFileListed()
      ensures old(Valid()) ==> Valid()
      ensures filename.Some? && filename.value != "" ==> NamesFile(assignment.files, filename.value)
    {
      if filename == None || filename == Some("") {
        return;
      }
      var newFile := NewFile(filename.value, "");
      var oldFiles := assignment.files;
      assignment := assignment.(files := oldFiles + [newFile]);
      assert assignment.files[|oldFiles|] == newFile;
      assert forall i :: 0 <= i < |oldFiles| ==> assignment.files[i] == oldFiles[i];
      currentFile := |oldFiles|;
    }

    /** `handleDeleteFile`: with one file or none there is nothing to delete
      (the page alerts); otherwise, if the user confirms, the selected file
      goes, the main file moves to the first remaining file when it was the
      deleted one, and the selection stays in range. */
    method DeleteFile(confirmed: bool) returns (alerted: bool)
      requires Renderable()
      modifies this
      ensures alerted <==> |old(assignment.files)| <= 1
      ensures alerted || !confirmed ==> assignment == old(assignment) && currentFile == old(currentFile)
      ensures !alerted && confirmed ==>
        && assignment == old(assignment).(
             files := RemoveAt(old(assignment.files), old(currentFile)),
             mainFile := if old(assignment.files[currentFile].filename) == old(assignment.mainFile)
                         then RemoveAt(old(assignment.files), old(currentFile))[0].filename
                         else old(assignment.mainFile))
        && currentFile == if old(currentFile) < |assignment.files| - 1 then old(currentFile) else |assignment.files| - 1
      ensures displayOptions == old(displayOptions)
      ensures Renderable()
      ensures old(MainFileListed()) ==> MainFileListed()
      ensures old(Valid()) ==> Valid()
    {
      if |assignment.files| <= 1 {
        return true;
      }
      alerted := false;
      if !confirmed {
        return;
      }
      var deleted := assignment.files[currentFile];
      var updatedFiles := RemoveAt(assignment.files, currentFile);
      var mainFile := assignment.mainFile;
      if deleted.filename == assignment.mainFile {
        mainFile := updatedFiles[0].filename;
      } else {
        RemoveAtKeepsOtherNames(assignment.files, currentFile, mainFile);
      }
      assert NamesFile(updatedFiles, updatedFiles[0].filename);
      assignment := assignment.(files := updatedFiles, mainFile := mainFile);
      currentFile := if currentFile < |updatedFiles| - 1 then currentFile else |updatedFiles| - 1;
    }

    /** `handleOptionChange`: a checkbox sets the option it is named after. */
    method OptionChange(flag: Flag, checked: bool)
      modifies this
      ensures displayOptions == old(displayOptions).With(flag, checked)
      ensures assignment == old(assignment) && currentFile == old(currentFile)
      ensures old(Valid()) ==> Valid()
    {
      displayOptions := displayOptions.With(flag, checked);
    }

    /** `handleSetMainFile`: the selected file becomes the main file; the
      button exists only while the selected file does. */
    method SetMainFile()
      requires currentFile < |assignment.files|
      modifies this
      ensures assignment == old(assignment).(mainFile := old(assignment.files[currentFile].filename))
      ensures displayOptions == old(displayOptions) && currentFile == old(currentFile)
      ensures MainFileListed() && Renderable()
      ensures old(Valid()) ==> Valid()
    {
      assignment := assignment.(mainFile := assignment.files[currentFile].filename);
    }

    /** One of the page's `if (!flag) queryParams.append(name, "false")`. */
    static method AppendIfOff(q: Query, on: bool, name: string) returns (q': Query)
      ensures q' == q + (if on then [] else [(name, "false")])
    {
      q' := q;
      if !on {
        q' := q' + [(name, "false")];
      }
    }

    /** The embed effect: the assignment's JSON text is base64-encoded and
      put in the `data` parameter, followed by `<flag>=false` for each of
      the four flags the page offers that is off. An encoding error
      yields no link. */
    method EmbedQuery(stringify: Json -> string, btoa: string -> Result<string>) returns (r: Result<Query>)
      ensures r.Err? <==> btoa(stringify(AssignmentJson(assignment))).Err?
      ensures r.Ok? ==> r.value == [("data", btoa(stringify(AssignmentJson(assignment))).value)] + OffFlags(displayOptions)
      ensures r.Ok? ==> IsLinkShape(r.value)
      ensures r.Ok? ==> Lookup(r.value, "data") == Some(btoa(stringify(AssignmentJson(assignment))).value)
      ensures r.Ok? ==> forall f :: f != ShowPreview ==> ((FlagName(f), "false") in r.value <==> !displayOptions.Get(f))
      ensures r.Ok? ==> ParseOptions(r.value) == EmbedOptions(
        displayOptions.autoReload, displayOptions.showAssignment, displayOptions.isScored,
        displayOptions.showEditors, true, Dark)
    {
      var b64 := btoa(stringify(AssignmentJson(assignment)));
      if b64.Err? {
        return Err(b64.error);
      }
      var queryParams: Query := [("data", b64.value)];
      queryParams := AppendIfOff(queryParams, displayOptions.autoReload, "autoReload");
      queryParams := AppendIfOff(queryParams, displayOptions.showAssignment, "showAssignment");
      queryParams := AppendIfOff(queryParams, displayOptions.isScored, "isScored");
      queryParams := AppendIfOff(queryParams, displayOptions.showEditors, "showEditors");
      assert queryParams == [("data", b64.value)] + OffFlags(displayOptions);
      EditorLinkOptions(b64.value, displayOptions);
      return Ok(queryParams);
    }
  }
}
