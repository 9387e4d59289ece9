/**
 * DialogHelper's save prompts: the filter lists each dialog offers, the
 * initial directory, the OK/cancel result, and in the image prompt the filter
 * entry preselected from the last-used extension and the update of that
 * extension after OK. Showing the dialog, the Path helpers and persisting the
 * configuration are inputs or counters here.
 */
module Dialogs {
  import opened Wrappers

  datatype FileType = Pdf | Bmp | Emf | Exif | Gif | Jpeg | Png | Tiff

  /** One "description|*.a;*.b" entry of a dialog filter: the extensions it matches, without dots. */
  datatype FilterEntry = FilterEntry(fileType: FileType, extensions: seq<string>)

  /** The seven image entries, in the order the image prompt lists them (FilterIndex 1..7). */
  const ImageFilters: seq<FilterEntry> := [
    FilterEntry(Bmp, ["bmp"]),
    FilterEntry(Emf, ["emf"]),
    FilterEntry(Exif, ["exif"]),
    FilterEntry(Gif, ["gif"]),
    FilterEntry(Jpeg, ["jpg", "jpeg"]),
    FilterEntry(Png, ["png"]),
    FilterEntry(Tiff, ["tiff", "tif"])
  ]

  const PdfFilters: seq<FilterEntry> := [FilterEntry(Pdf, ["pdf"])]

  /** The PDF entry followed by the image entries. */
  const PdfOrImageFilters: seq<FilterEntry> := PdfFilters + ImageFilters

  /** What the Path helpers answer for the default path. */
  datatype PathFacts = PathFacts(fileName: string, isRooted: bool, directoryName: Option<string>)

  /** What the user did with the dialog: OK with a file name (and Path.GetExtension of it), or cancel. */
  datatype DialogAnswer = Accepted(fileName: string, extension: Option<string>) | Cancelled

  /** The SaveFileDialog as configured before it is shown (FilterIndex starts at 1). */
  datatype SaveDialog = SaveDialog(overwritePrompt: bool, addExtension: bool, filters: seq<FilterEntry>,
                                   fileName: string, initialDirectory: Option<string>, filterIndex: nat)

  /** The bool return value and the out savePath (None for null). */
  datatype SavePrompt = SavePrompt(dialog: SaveDialog, accepted: bool, savePath: Option<string>)

  /** GetDir: the directory of a rooted default path, the empty string otherwise. */
  function GetDir(facts: PathFacts): (dir: Option<string>)
    ensures facts.isRooted ==> dir == facts.directoryName
    ensures !facts.isRooted ==> dir == Some("")
  {
    if facts.isRooted then facts.directoryName else Some("")
  }

  function NewSaveDialog(filters: seq<FilterEntry>, facts: PathFacts): (d: SaveDialog)
    ensures !d.overwritePrompt && d.addExtension && d.filters == filters && d.filterIndex == 1
    ensures d.fileName == facts.fileName && d.initialDirectory == GetDir(facts)
  {
    SaveDialog(false, true, filters, facts.fileName, GetDir(facts), 1)
  }

  /** ShowDialog and its result: true and the chosen name on OK, false and null on cancel. */
  function Show(dialog: SaveDialog, answer: DialogAnswer): (r: SavePrompt)
    ensures r.dialog == dialog
    ensures r.accepted <==> answer.Accepted?
    ensures r.savePath.Some? <==> answer.Accepted?
    ensures answer.Accepted? ==> r.savePath.value == answer.fileName
  {
    match answer
    case Accepted(name, _) => SavePrompt(dialog, true, Some(name))
    case Cancelled => SavePrompt(dialog, false, None)
  }

  /** PromptToSavePdfOrImage: the PDF and image filters, no preselection. */
  function PromptToSavePdfOrImage(facts: PathFacts, answer: DialogAnswer): (r: SavePrompt)
    ensures r.dialog == NewSaveDialog(PdfOrImageFilters, facts)
    ensures r.accepted <==> answer.Accepted?
    ensures r.accepted ==> r.savePath == Some(answer.fileName)
    ensures !r.accepted ==> r.savePath == None
  {
    Show(NewSaveDialog(PdfOrImageFilters, facts), answer)
  }

  /** PromptToSavePdf: the PDF filter only. */
  function PromptToSavePdf(facts: PathFacts, answer: DialogAnswer): (r: SavePrompt)
    ensures r.dialog == NewSaveDialog(PdfFilters, facts)
    ensures r.accepted <==> answer.Accepted?
    ensures r.accepted ==> r.savePath == Some(answer.fileName)
    ensures !r.accepted ==> r.savePath == None
  {
    Show(NewSaveDialog(PdfFilters, facts), answer)
  }

  /** ToLowerInvariant on one character, for the ASCII letters. */
  function LowerChar(c: char): char
  {
    if 'A' <= c <= 'Z' then (c as int + 32) as char else c
  }

  function ToLowerAscii(s: string): (r: string)
    ensures |r| == |s|
    ensures forall i :: 0 <= i < |s| ==> r[i] == LowerChar(s[i])
  {
    if |s| == 0 then [] else [LowerChar(s[0])] + ToLowerAscii(s[1..])
  }

  /** Replace(".", ""): every dot removed, every other character kept in order. */
  function RemoveDots(s: string): (r: string)
    ensures '.' !in r
    ensures forall c :: c != '.' ==> multiset(r)[c] == multiset(s)[c]
    ensures '.' !in s ==> r == s
  {
    if |s| == 0 then []
    else
      assert s == [s[0]] + s[1..];
      if s[0] == '.' then RemoveDots(s[1..]) else [s[0]] + RemoveDots(s[1..])
  }

  /** Removing dots works piece by piece, so the characters kept stay in their order. */
  lemma {:induction false} RemoveDotsAppend(a: string, b: string)
    ensures RemoveDots(a + b) == RemoveDots(a) + RemoveDots(b)
    decreases |a|
  {
    if |a| > 0 {
      assert (a + b)[0] == a[0] && (a + b)[1..] == a[1..] + b;
      RemoveDotsAppend(a[1..], b);
    } else {
      assert a + b == b;
    }
  }

  /** For example, "a.b" becomes "ab" and ".png" becomes "png". */
  lemma RemoveDotsExamples()
    ensures RemoveDots("a.b") == "ab"
    ensures RemoveDots(".png") == "png"
  {
    assert "a.b" == "a" + "." + "b";
    RemoveDotsAppend("a" + ".", "b");
    RemoveDotsAppend("a", ".");
    assert ".png" == "." + "png";
    RemoveDotsAppend(".", "png");
  }

  /**
   * The FilterIndex preselected from LastImageExt: the null value reads as "",
   * the comparison ignores case, and anything unrecognised selects JPEG.
   */
  function FilterIndexFor(lastImageExt: Option<string>): (index: nat)
    ensures 1 <= index <= |ImageFilters|
  {
    var ext := ToLowerAscii(lastImageExt.GetOr(""));
    if ext == "bmp" then 1
    else if ext == "emf" then 2
    else if ext == "exif" then 3
    else if ext == "gif" then 4
    else if ext == "png" then 6
    else if ext == "tif" || ext == "tiff" then 7
    else 5
  }

  /** The extension, lowered, is listed by some image entry. */
  predicate Listed(ext: string)
  {
    exists k :: 0 <= k < |ImageFilters| && ext in ImageFilters[k].extensions
  }

  /**
   * The preselected entry is the one listing the last extension (ignoring
   * case); an extension no entry lists selects the JPEG entry.
   */
  lemma FilterIndexNamesEntry(lastImageExt: Option<string>)
    ensures var ext := ToLowerAscii(lastImageExt.GetOr(""));
            var entry := ImageFilters[FilterIndexFor(lastImageExt) - 1];
            && (Listed(ext) ==> ext in entry.extensions)
            && (!Listed(ext) ==> entry.fileType == Jpeg)
  {
    var ext := ToLowerAscii(lastImageExt.GetOr(""));
    if Listed(ext) {
      var k :| 0 <= k < |ImageFilters| && ext in ImageFilters[k].extensions;
      assert k == 4 ==> FilterIndexFor(lastImageExt) == 5;
    }
  }

  /** No two image entries list the same extension, so the entry named above is unique. */
  lemma ImageFilterExtensionsDisjoint(k: nat, j: nat, ext: string)
    requires k < j < |ImageFilters|
    ensures !(ext in ImageFilters[k].extensions && ext in ImageFilters[j].extensions)
  {
  }

  /** The user's settings the image prompt reads and writes; `saves` counts UserConfig.Manager.Save calls. */
  class UserConfig {
    var lastImageExt: Option<string>
    var saves: nat

    constructor (lastImageExt: Option<string>)
      ensures this.lastImageExt == lastImageExt && saves == 0
    {
      this.lastImageExt := lastImageExt;
      saves := 0;
    }
  }

  /**
   * PromptToSaveImage: the image filters with the entry for the last
   * extension preselected; on OK the chosen file's extension, dots removed,
   * becomes the last extension and the configuration is saved once; on
   * cancel nothing changes.
   */
  method PromptToSaveImage(config: UserConfig, facts: PathFacts, answer: DialogAnswer) returns (r: SavePrompt)
    modifies config
    ensures r.dialog == NewSaveDialog(ImageFilters, facts).(filterIndex := FilterIndexFor(old(config.lastImageExt)))
    ensures r.accepted <==> answer.Accepted?
    ensures r.accepted ==> && r.savePath == Some(answer.fileName)
                           && config.lastImageExt == Some(RemoveDots(answer.extension.GetOr("")))
                           && config.saves == old(config.saves) + 1
    ensures !r.accepted ==> && r.savePath == None
                            && config.lastImageExt == old(config.lastImageExt) && config.saves == old(config.saves)
  {
    var dialog := NewSaveDialog(ImageFilters, facts);
    dialog := dialog.(filterIndex := FilterIndexFor(config.lastImageExt));
    r := Show(dialog, answer);
    if r.accepted {
      config.lastImageExt := Some(RemoveDots(answer.extension.GetOr("")));
      config.saves := config.saves + 1;
    }
  }

  /**
   * Saving as "name.EXT" with an extension some image entry lists makes the
   * next image prompt preselect that entry.
   */
  lemma {:induction false} SavedExtensionPreselected(ext: string, k: nat)
    requires k < |ImageFilters|
    requires ToLowerAscii(ext) in ImageFilters[k].extensions
    ensures FilterIndexFor(Some(RemoveDots("." + ext))) == k + 1
  {
    assert RemoveDots("." + ext) == ext by {
      assert ("." + ext)[1..] == ext;
    }
    FilterIndexNamesEntry(Some(ext));
    if !(k == 4 || FilterIndexFor(Some(ext)) == k + 1) {
      ImageFilterExtensionsDisjoint(if k < FilterIndexFor(Some(ext)) - 1 then k else FilterIndexFor(Some(ext)) - 1,
                                    if k < FilterIndexFor(Some(ext)) - 1 then FilterIndexFor(Some(ext)) - 1 else k,
                                    ToLowerAscii(ext));
    }
  }
}
