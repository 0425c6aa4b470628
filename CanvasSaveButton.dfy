/**
 * The file naming of CanvasSaveButton: the extension chosen from the save
 * format when the button is built, the download name derived from the
 * document title, and the dpi used when the canvas image is created.
 * The document title is a parameter; lowercasing covers ASCII letters.
 */
module CanvasSaveButtons {
  import opened Wrappers

  /** The saveFormat prop when none is given. */
  const DefaultSaveFormat: string := "image/png"

  /** The dpi when extraData does not give one. */
  const DefaultDpi: int := 96

  /** What the constructor stores: options.format and fileExt. */
  datatype SaveButton = SaveButton(format: string, fileExt: string)

  /** The optional extraData prop; only its dpi entry is read here. */
  datatype ExtraData = ExtraData(dpi: Option<int>)

  /** 'jpg' for JPEG, 'png' for every other format. */
  function FileExt(format: string): (r: string)
    ensures r == "jpg" <==> format == "image/jpeg"
    ensures r == "png" <==> format != "image/jpeg"
    ensures |r| == 3 && ' ' !in r
  {
    if format == "image/jpeg" then "jpg" else "png"
  }

  /** The constructor: an absent saveFormat falls back to the default. */
  function Create(saveFormat: Option<string>): (b: SaveButton)
    ensures saveFormat.Some? ==> b.format == saveFormat.value
    ensures saveFormat.None? ==> b.format == DefaultSaveFormat
    ensures b.fileExt == FileExt(b.format)
  {
    var format := saveFormat.GetOr(DefaultSaveFormat);
    SaveButton(format, FileExt(format))
  }

  /** Every space replaced by an underscore (a global replace). */
  function ReplaceSpaces(s: string): (r: string)
    ensures |r| == |s| && ' ' !in r
    ensures forall i :: 0 <= i < |s| ==> r[i] == (if s[i] == ' ' then '_' else s[i])
  {
    if s == [] then [] else [if s[0] == ' ' then '_' else s[0]] + ReplaceSpaces(s[1..])
  }

  function LowerChar(c: char): char {
    if 'A' <= c <= 'Z' then (c as int - 'A' as int + 'a' as int) as char else c
  }

  /** ASCII lowercasing, character by character. */
  function ToLowerAscii(s: string): (r: string)
    ensures |r| == |s|
    ensures forall i :: 0 <= i < |s| ==> r[i] == LowerChar(s[i])
    ensures forall i :: 0 <= i < |r| ==> !('A' <= r[i] <= 'Z')
  {
    if s == [] then [] else [LowerChar(s[0])] + ToLowerAscii(s[1..])
  }

  /** getDownloadImageName: the title with spaces replaced, lowercased, then '.' and the extension. */
  function DownloadImageName(b: SaveButton, title: string): (r: string)
    requires b.fileExt == FileExt(b.format)
    ensures ' ' !in r
    ensures |r| == |title| + 1 + |b.fileExt|
    ensures r[|title|..] == "." + b.fileExt
    ensures forall i :: 0 <= i < |title| ==> r[i] == LowerChar(if title[i] == ' ' then '_' else title[i])
  {
    ToLowerAscii(ReplaceSpaces(title)) + "." + b.fileExt
  }

  /** createCanvasImage: extraData's dpi when it is present and not zero, 96 otherwise. */
  function Dpi(extraData: Option<ExtraData>): (r: int)
    ensures r != 0
    ensures extraData.Some? && extraData.value.dpi.Some? && extraData.value.dpi.value != 0 ==> r == extraData.value.dpi.value
    ensures extraData.None? || extraData.value.dpi.None? || extraData.value.dpi == Some(0) ==> r == DefaultDpi
  {
    match extraData
    case Some(ExtraData(Some(d))) => if d != 0 then d else DefaultDpi
    case _ => DefaultDpi
  }

  // ---------------------------------------------------------------------
  // Lemmas

  /** The download name ends in '.jpg' or '.png', '.jpg' exactly for JPEG, '.png' by default. */
  lemma DownloadSuffix(saveFormat: Option<string>, title: string)
    ensures var b := Create(saveFormat);
      var r := DownloadImageName(b, title);
      && |r| == |title| + 4
      && (r[|title|..] == ".jpg" || r[|title|..] == ".png")
      && (r[|title|..] == ".jpg" <==> b.format == "image/jpeg")
      && (saveFormat.None? ==> r[|title|..] == ".png")
  {
    var b := Create(saveFormat);
    var r := DownloadImageName(b, title);
    if b.format != "image/jpeg" {
      assert r[|title|..][1] == 'p';
    }
  }

  /** Replacing spaces and lowercasing commute: '_' and ' ' are not letters. */
  lemma {:induction false} ReplaceLowerCommute(s: string)
    ensures ToLowerAscii(ReplaceSpaces(s)) == ReplaceSpaces(ToLowerAscii(s))
  {
    var a := ToLowerAscii(ReplaceSpaces(s));
    var b := ReplaceSpaces(ToLowerAscii(s));
    forall i | 0 <= i < |s| ensures a[i] == b[i] {
    }
  }

  /** Naming is idempotent on its title part: a name built from an already built name changes nothing before the extension. */
  lemma {:induction false} NameIdempotent(b: SaveButton, title: string)
    requires b.fileExt == FileExt(b.format)
    ensures var t := DownloadImageName(b, title)[..|title|]; DownloadImageName(b, t) == DownloadImageName(b, title)
  {
    var r := DownloadImageName(b, title);
    var t := r[..|title|];
    var r2 := DownloadImageName(b, t);
    assert |r2| == |r|;
    forall i | 0 <= i < |r| ensures r2[i] == r[i] {
      if i >= |title| {
        assert r2[i] == r2[|t|..][i - |t|];
        assert r[i] == r[|title|..][i - |title|];
      }
    }
  }
}
