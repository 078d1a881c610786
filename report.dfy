/**
 * The third sink's pure parts: the name of the report object and the
 * text of the report.
 */
module Report {
  import opened Wrappers
  import opened Text
  import opened Metadata

  const REPORT_SUFFIX := "_processing_report.txt"

  /**
   * `split('/')[-1]`, then `.replace('.png', '')`, `.replace('.jpg', '')`,
   * `.replace('.jpeg', '')`, then the suffix.
   */
  function ReportName(filename: string): (r: string)
    ensures |r| >= |REPORT_SUFFIX| && r[|r| - |REPORT_SUFFIX|..] == REPORT_SUFFIX
    ensures '/' !in r
  {
    var base := Last(Split(filename, '/'));
    var stripped := RemoveAll(RemoveAll(RemoveAll(base, ".png"), ".jpg"), ".jpeg");
    stripped + REPORT_SUFFIX
  }

  /** With no '/', '.png', '.jpg' or '.jpeg' in the name, the report is the name plus the suffix. */
  lemma ReportNameUnchanged(filename: string)
    requires '/' !in filename
    requires !Occurs(filename, ".png") && !Occurs(filename, ".jpg") && !Occurs(filename, ".jpeg")
    ensures ReportName(filename) == filename + REPORT_SUFFIX
  {
    LastSplitNoSeparator(filename, '/');
    RemoveAllAbsent(filename, ".png");
    RemoveAllAbsent(filename, ".jpg");
    RemoveAllAbsent(filename, ".jpeg");
  }

  /**
   * A name whose one '.' is followed by neither 'p' nor 'j' loses nothing
   * to the three deletions: it just gets the suffix.
   */
  lemma ReportNameKeepsOtherExtension(stem: string, ext: string)
    requires '/' !in stem && '.' !in stem && '/' !in ext && '.' !in ext
    requires |ext| > 0 && ext[0] != 'p' && ext[0] != 'j'
    ensures ReportName(stem + "." + ext) == stem + "." + ext + REPORT_SUFFIX
  {
    var name := stem + "." + ext;
    assert '/' !in name;
    OnlyOneDot(stem, ext, ".png");
    OnlyOneDot(stem, ext, ".jpg");
    OnlyOneDot(stem, ext, ".jpeg");
    ReportNameUnchanged(name);
  }

  /** ".gif" is not stripped: "photo.gif" gives "photo.gif_processing_report.txt". */
  lemma ReportNameKeepsGif(stem: string)
    requires '/' !in stem && '.' !in stem
    ensures ReportName(stem + ".gif") == stem + ".gif" + REPORT_SUFFIX
  {
    assert stem + ".gif" == stem + "." + "gif";
    ReportNameKeepsOtherExtension(stem, "gif");
  }

  /** Matching is case-sensitive: "photo.PNG" keeps its ".PNG". */
  lemma ReportNameIsCaseSensitive(stem: string)
    requires '/' !in stem && '.' !in stem
    ensures ReportName(stem + ".PNG") == stem + ".PNG" + REPORT_SUFFIX
  {
    assert stem + ".PNG" == stem + "." + "PNG";
    ReportNameKeepsOtherExtension(stem, "PNG");
  }

  /** The three deletions and the suffix, one step at a time. */
  lemma ReportNameSteps(filename: string, base: string, a: string, b: string, c: string)
    requires Last(Split(filename, '/')) == base
    requires RemoveAll(base, ".png") == a && RemoveAll(a, ".jpg") == b && RemoveAll(b, ".jpeg") == c
    ensures ReportName(filename) == c + REPORT_SUFFIX
  {
  }

  /** A name without '.' loses nothing to the three deletions. */
  lemma RemoveNothingWithoutDot(s: string)
    requires '.' !in s
    ensures RemoveAll(s, ".png") == s && RemoveAll(s, ".jpg") == s && RemoveAll(s, ".jpeg") == s
  {
    NotOccursMissingChar(s, ".png", 0);
    RemoveAllAbsent(s, ".png");
    NotOccursMissingChar(s, ".jpg", 0);
    RemoveAllAbsent(s, ".jpg");
    NotOccursMissingChar(s, ".jpeg", 0);
    RemoveAllAbsent(s, ".jpeg");
  }

  /** Most names: "images-input/photo.png" gives "photo_processing_report.txt". */
  lemma ReportNameStripsPng(dir: string, stem: string)
    requires '/' !in stem && '.' !in stem
    ensures ReportName(dir + "/" + stem + ".png") == stem + REPORT_SUFFIX
  {
    var name := dir + "/" + stem + ".png";
    assert Last(Split(name, '/')) == stem + ".png" by {
      assert name[|dir| + 1..] == stem + ".png";
      assert '/' !in stem + ".png";
      LastSplitAfterLastSeparator(name, '/', |dir|);
    }
    assert RemoveAll(stem + ".png", ".png") == stem by {
      assert stem + ".png" == stem + ".png" + "";
      RemoveAllAfterPlain(stem, ".png", "");
    }
    RemoveNothingWithoutDot(stem);
    ReportNameSteps(name, stem + ".png", stem, stem, stem);
  }

  /** The same for a name without directory: "photo.png" gives "photo_processing_report.txt". */
  lemma ReportNameStripsPngHere(stem: string)
    requires '/' !in stem && '.' !in stem
    ensures ReportName(stem + ".png") == stem + REPORT_SUFFIX
  {
    var name := stem + ".png";
    assert Last(Split(name, '/')) == name by {
      assert '/' !in name;
      LastSplitNoSeparator(name, '/');
    }
    assert RemoveAll(name, ".png") == stem by {
      assert name == stem + ".png" + "";
      RemoveAllAfterPlain(stem, ".png", "");
    }
    RemoveNothingWithoutDot(stem);
    ReportNameSteps(name, name, stem, stem, stem);
  }

  /** Every occurrence is removed, not only a trailing one. */
  lemma ReportNameStripsEveryOccurrence(a: string, b: string)
    requires '/' !in a && '.' !in a && '/' !in b && '.' !in b
    ensures ReportName(a + ".png" + b + ".png") == a + b + REPORT_SUFFIX
  {
    var name := a + ".png" + b + ".png";
    assert Last(Split(name, '/')) == name by {
      assert '/' !in name;
      LastSplitNoSeparator(name, '/');
    }
    assert RemoveAll(name, ".png") == a + b by {
      assert name == a + ".png" + (b + ".png");
      RemoveAllAfterPlain(a, ".png", b + ".png");
      assert b + ".png" == b + ".png" + "";
      RemoveAllAfterPlain(b, ".png", "");
    }
    RemoveNothingWithoutDot(a + b);
    ReportNameSteps(name, name, a + b, a + b, a + b);
  }

  /**
   * In `stem + "." + ext` with no other '.', a pattern that starts with
   * '.' can only match at that '.', so one whose second character differs
   * from the first of `ext` does not occur.
   */
  lemma OnlyOneDot(stem: string, ext: string, q: string)
    requires '.' !in stem && '.' !in ext
    requires |q| >= 2 && q[0] == '.' && (|ext| > 0 ==> q[1] != ext[0])
    ensures !Occurs(stem + "." + ext, q)
  {
    var s := stem + "." + ext;
    forall i: nat | i <= |s| ensures !OccursAt(s, q, i) {
      if i + |q| <= |s| {
        if i < |stem| {
          assert s[i..i + |q|][0] == stem[i] != q[0];
        } else if i == |stem| {
          assert s[i..i + |q|][1] == ext[0] != q[1];
        } else {
          assert s[i] == ext[i - |stem| - 1];
          assert s[i..i + |q|][0] != '.';
        }
      }
    }
  }

  /** In `stem + ".p.pngng"` no ".png" starts before the second '.'. */
  lemma NoMatchBeforeSecondDot(stem: string)
    requires '.' !in stem
    ensures forall i | 0 <= i < |stem| + 2 :: !OccursAt(stem + ".p.pngng", ".png", i)
  {
    var name := stem + ".p.pngng";
    forall k | 0 <= k < 8 ensures name[|stem| + k] == ".p.pngng"[k] {
    }
    forall i | 0 <= i < |stem| + 2 ensures !OccursAt(name, ".png", i) {
      if i < |stem| {
        assert name[i] == stem[i];
        assert name[i..i + 4][0] == name[i] != ".png"[0];
      } else if i == |stem| {
        assert name[i + 2] == ".p.pngng"[2] == '.';
        assert name[i..i + 4][2] == name[i + 2] != ".png"[2];
      } else {
        assert name[i] == ".p.pngng"[1] == 'p';
        assert name[i..i + 4][0] == name[i] != ".png"[0];
      }
    }
  }

  /** Deleting ".png" from `stem + ".p.pngng"` leaves `stem + ".png"`. */
  lemma SinglePassPng(stem: string)
    requires '.' !in stem
    ensures RemoveAll(stem + ".p.pngng", ".png") == stem + ".png"
  {
    var x := stem + ".p";
    assert stem + ".p.pngng" == x + ".png" + "ng";
    NoMatchBeforeSecondDot(stem);
    RemoveAllAfter(x, ".png", "ng");
    assert RemoveAll("ng", ".png") == "ng";
    assert x + "ng" == stem + ".png";
  }

  /** `stem + ".png"` loses nothing to the ".jpg" and ".jpeg" deletions. */
  lemma PngKeepsItsName(stem: string)
    requires '.' !in stem
    ensures RemoveAll(stem + ".png", ".jpg") == stem + ".png"
    ensures RemoveAll(stem + ".png", ".jpeg") == stem + ".png"
  {
    assert stem + ".png" == stem + "." + "png";
    OnlyOneDot(stem, "png", ".jpg");
    RemoveAllAbsent(stem + ".png", ".jpg");
    OnlyOneDot(stem, "png", ".jpeg");
    RemoveAllAbsent(stem + ".png", ".jpeg");
  }

  /** One pass only: deleting ".png" from "x.p.pngng" leaves a new ".png" behind. */
  lemma ReportNameSinglePass(stem: string)
    requires '/' !in stem && '.' !in stem
    ensures ReportName(stem + ".p.pngng") == stem + ".png" + REPORT_SUFFIX
  {
    var name := stem + ".p.pngng";
    var kept := stem + ".png";
    assert '/' !in name;
    LastSplitNoSeparator(name, '/');
    SinglePassPng(stem);
    PngKeepsItsName(stem);
    ReportNameSteps(name, name, kept, kept, kept);
  }

  const REPORT_HEADER := "=== Image Processing Report ==="

  /** The checklist: the same "Success" lines for every report. */
  const STATUS_SECTION: seq<string> := [
    "=== Processing Status ===",
    "\U{2705} Image File Reception: Success",
    "\U{2705} File Reading: Success",
    "\U{2705} Metadata Extraction: Success",
    "\U{2705} SQL Database Save: Success",
    "\U{2705} Queue Send: Success",
    "\U{2705} Report Generation: Success"]

  /** The closing sections, also fixed. */
  const WORKFLOW_SECTION: seq<string> := [
    "=== Assignment 1 Workflow ===",
    "This image was processed using Azure Functions workflow",
    "combining Lab 1 (Queue + SQL dual output) and Lab 2 (metadata extraction)",
    "into a comprehensive image processing pipeline.",
    "",
    "=== Lab 1 Features ===",
    "- SQL Database Storage: \U{2705}",
    "- Queue Message Sending: \U{2705}",
    "- Dual Output Processing: \U{2705}",
    "",
    "=== Lab 2 Features ===",
    "- Blob Trigger Processing: \U{2705}",
    "- Image Metadata Extraction: \U{2705}",
    "- Report Generation: \U{2705}"]

  /** `metadata.get(key, 'Unknown')` for a text value. */
  function ShowText(v: Option<string>): string {
    v.GetOr("Unknown")
  }

  /** `metadata.get(key, 'Unknown')` for an integer value, rendered by `str`. */
  function ShowInt(v: Option<int>): string {
    match v
    case Some(n) => IntToString(n)
    case None => "Unknown"
  }

  /**
   * The lines of the report. `fixed2` renders a number as `:.2f` does;
   * a missing size is rendered from 0.
   */
  function ReportLines(m: MetadataRecord, fixed2: real -> string): (lines: seq<string>)
    ensures |lines| == 34
    ensures lines[12..19] == STATUS_SECTION && lines[20..] == WORKFLOW_SECTION
  {
    [ REPORT_HEADER,
      "Processing Time: " + ShowText(m.processingTime),
      "Original Filename: " + ShowText(m.filename),
      "File Size: " + fixed2(m.fileSizeKb.GetOr(0.0)) + " KB",
      "",
      "=== Image Metadata ===",
      "Format: " + ShowText(m.format),
      "Mode: " + ShowText(m.mode),
      "Width: " + ShowInt(m.width),
      "Height: " + ShowInt(m.height),
      "ID: " + ShowText(m.id),
      ""
    ] + STATUS_SECTION + [""] + WORKFLOW_SECTION
  }

  /** `format_processing_report`: the lines, each ended by a newline. */
  function FormatReport(m: MetadataRecord, fixed2: real -> string): (text: string)
    ensures text == Join(ReportLines(m, fixed2), '\n') + "\n"
    ensures |text| > 0 && text[|text| - 1] == '\n'
  {
    var lines := ReportLines(m, fixed2);
    JoinAppend(lines, [""], '\n');
    Join(lines + [""], '\n')
  }

  /** Everything after the twelfth line: the checklist and the closing sections. */
  const FIXED_TAIL := Join(STATUS_SECTION + [""] + WORKFLOW_SECTION + [""], '\n')

  /** The report starts with its header line. */
  lemma ReportStartsWithHeader(m: MetadataRecord, fixed2: real -> string)
    ensures var text := FormatReport(m, fixed2);
      |text| > |REPORT_HEADER| && text[..|REPORT_HEADER| + 1] == REPORT_HEADER + "\n"
  {
    var parts := ReportLines(m, fixed2) + [""];
    assert parts[0] == REPORT_HEADER;
    assert Join(parts, '\n') == REPORT_HEADER + "\n" + Join(parts[1..], '\n');
  }

  /**
   * After the lines that show the record comes the same fixed text for
   * every record: the checklist reports "Success" for every stage whatever
   * the sinks did.
   */
  lemma ReportEndsWithFixedTail(m: MetadataRecord, fixed2: real -> string)
    ensures FormatReport(m, fixed2) == Join(ReportLines(m, fixed2)[..12], '\n') + "\n" + FIXED_TAIL
  {
    var lines := ReportLines(m, fixed2);
    assert lines + [""] == lines[..12] + (STATUS_SECTION + [""] + WORKFLOW_SECTION + [""]);
    JoinAppend(lines[..12], STATUS_SECTION + [""] + WORKFLOW_SECTION + [""], '\n');
  }

  /** Two reports differ at most in what comes before the fixed tail. */
  lemma ReportChecklistIsFixed(m1: MetadataRecord, m2: MetadataRecord, f1: real -> string, f2: real -> string)
    ensures var t1 := FormatReport(m1, f1);
      var t2 := FormatReport(m2, f2);
      |t1| >= |FIXED_TAIL| && |t2| >= |FIXED_TAIL| &&
      t1[|t1| - |FIXED_TAIL|..] == t2[|t2| - |FIXED_TAIL|..] == FIXED_TAIL
  {
    ReportEndsWithFixedTail(m1, f1);
    ReportEndsWithFixedTail(m2, f2);
  }

  /** Line `k` of the report, between two line breaks. */
  predicate HasLine(text: string, line: string) {
    Occurs(text, "\n" + line + "\n")
  }

  lemma ReportHasLine(m: MetadataRecord, fixed2: real -> string, k: nat)
    requires 0 < k < 12
    ensures HasLine(FormatReport(m, fixed2), ReportLines(m, fixed2)[k])
  {
    var parts := ReportLines(m, fixed2) + [""];
    JoinHasPart(parts, k, '\n');
    assert [ '\n' ] + parts[k] + [ '\n' ] == "\n" + parts[k] + "\n";
  }

  /**
   * Each metadata value shows up on a line of its own, "Unknown" standing
   * in for a missing key and 0 for a missing size.
   */
  lemma ReportShowsMetadata(m: MetadataRecord, fixed2: real -> string)
    ensures var text := FormatReport(m, fixed2);
      && HasLine(text, "Width: " + (if m.width.Some? then IntToString(m.width.value) else "Unknown"))
      && HasLine(text, "Height: " + (if m.height.Some? then IntToString(m.height.value) else "Unknown"))
      && HasLine(text, "File Size: " + fixed2(if m.fileSizeKb.Some? then m.fileSizeKb.value else 0.0) + " KB")
      && HasLine(text, "Processing Time: " + (if m.processingTime.Some? then m.processingTime.value else "Unknown"))
      && HasLine(text, "Original Filename: " + (if m.filename.Some? then m.filename.value else "Unknown"))
      && HasLine(text, "Format: " + (if m.format.Some? then m.format.value else "Unknown"))
      && HasLine(text, "Mode: " + (if m.mode.Some? then m.mode.value else "Unknown"))
      && HasLine(text, "ID: " + (if m.id.Some? then m.id.value else "Unknown"))
  {
    ReportHasLine(m, fixed2, 1);
    ReportHasLine(m, fixed2, 2);
    ReportHasLine(m, fixed2, 3);
    ReportHasLine(m, fixed2, 6);
    ReportHasLine(m, fixed2, 7);
    ReportHasLine(m, fixed2, 8);
    ReportHasLine(m, fixed2, 9);
    ReportHasLine(m, fixed2, 10);
  }
}
