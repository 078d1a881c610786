/**
 * The file-type gate at the top of the blob trigger: the lower-cased
 * object name is split on '.', and only the last piece decides.
 */
module TypeGate {
  import opened Text

  /** The extensions the trigger processes. */
  const ACCEPTED_EXTENSIONS: set<string> := {"jpg", "jpeg", "png", "gif"}

  /** Lower-casing keeps '.' where it is and creates no other '.'. */
  lemma LowerKeepsDots(s: string)
    ensures forall k :: 0 <= k < |s| ==> (ToLower(s)[k] == '.' <==> s[k] == '.')
  {
  }

  /**
   * `blob_name.lower().split('.')[-1]`: the lower-cased name's longest
   * suffix without '.', which is the whole name or follows a '.'.
   */
  function Extension(name: string): (ext: string)
    ensures IsLastSegment(ToLower(name), '.', ext)
    ensures |ext| <= |name| && (|ext| < |name| ==> name[|name| - |ext| - 1] == '.')
  {
    LastSplitIsSuffix(ToLower(name), '.');
    LowerKeepsDots(name);
    Last(Split(ToLower(name), '.'))
  }

  /**
   * The gate: processing goes on only for these names. An accepted name
   * ends, up to letter case, in one of the four extensions, and that
   * extension starts the name or follows a '.'.
   */
  predicate IsImageName(name: string)
    ensures IsImageName(name) ==>
      var e := Extension(name);
      && |e| <= |name|
      && ToLower(name)[|name| - |e|..] in ACCEPTED_EXTENSIONS
      && (|e| < |name| ==> name[|name| - |e| - 1] == '.')
  {
    ExtensionEndsLowerName(name);
    Extension(name) in ACCEPTED_EXTENSIONS
  }

  /** The extension is the end of the lower-cased name. */
  lemma ExtensionEndsLowerName(name: string)
    ensures var e := Extension(name); |e| <= |name| && ToLower(name)[|name| - |e|..] == e
  {
  }

  /** A name with a '.' is accepted exactly when the lower-cased text after its last '.' is an image extension. */
  lemma GateAfterLastDot(name: string, i: nat)
    requires i < |name| && name[i] == '.' && '.' !in name[i + 1..]
    ensures Extension(name) == ToLower(name[i + 1..])
    ensures IsImageName(name) <==> ToLower(name[i + 1..]) in ACCEPTED_EXTENSIONS
  {
    var low := ToLower(name);
    LowerKeepsDots(name);
    ToLowerSuffix(name, i + 1);
    assert '.' !in low[i + 1..] by {
      forall k | i + 1 <= k < |name| ensures low[k] != '.' {
        assert name[k] == name[i + 1..][k - i - 1];
      }
    }
    LastSplitAfterLastSeparator(low, '.', i);
  }

  /** A name without '.' is accepted exactly when the whole lower-cased name is an image extension. */
  lemma GateWithoutDot(name: string)
    requires '.' !in name
    ensures Extension(name) == ToLower(name)
    ensures IsImageName(name) <==> ToLower(name) in ACCEPTED_EXTENSIONS
  {
    LowerKeepsDots(name);
    assert '.' !in ToLower(name);
    LastSplitNoSeparator(ToLower(name), '.');
  }

  /** Two names that differ at most in the case of their letters. */
  predicate SameUpToCase(a: string, b: string) {
    |a| == |b| && forall k :: 0 <= k < |a| ==> LowerChar(a[k]) == LowerChar(b[k])
  }

  /** The gate ignores letter case. */
  lemma GateIgnoresCase(a: string, b: string)
    requires SameUpToCase(a, b)
    ensures IsImageName(a) <==> IsImageName(b)
  {
    assert ToLower(a) == ToLower(b);
  }

  lemma LowerPng()
    ensures ToLower("PNG") == "png"
  {
    assert ToLower("PNG") == [LowerChar('P')] + ToLower("NG");
    assert ToLower("NG") == [LowerChar('N')] + ToLower("G");
    assert ToLower("G") == [LowerChar('G')] + ToLower("");
  }

  /** The last '.' of `stem + "." + ext` is the one before `ext`. */
  lemma GateOnSuffix(stem: string, ext: string)
    requires '.' !in ext
    ensures IsImageName(stem + "." + ext) <==> ToLower(ext) in ACCEPTED_EXTENSIONS
  {
    var name := stem + "." + ext;
    assert name[|stem| + 1..] == ext;
    GateAfterLastDot(name, |stem|);
  }

  /** An upper-case extension passes the gate, whatever comes before it. */
  lemma GateExampleUpperCase(stem: string)
    ensures IsImageName(stem + ".PNG")
  {
    assert stem + ".PNG" == stem + "." + "PNG";
    GateOnSuffix(stem, "PNG");
    LowerPng();
  }

  /** Only the last piece counts: "photo.png.txt" is skipped. */
  lemma GateExampleDoubleExtension(stem: string)
    ensures !IsImageName(stem + ".png.txt")
  {
    assert stem + ".png.txt" == (stem + ".png") + "." + "txt";
    GateOnSuffix(stem + ".png", "txt");
    assert ToLower("txt") == "txt";
    assert "txt"[0] != "jpg"[0];
  }

  /** A name ending in '.' has an empty last piece and is skipped. */
  lemma GateExampleTrailingDot(stem: string)
    ensures !IsImageName(stem + ".")
  {
    assert stem + "." == stem + "." + "";
    GateOnSuffix(stem, "");
  }

  /** A name without '.' is its own extension: "png" passes. */
  lemma GateExampleBareExtension()
    ensures IsImageName("png")
  {
    GateWithoutDot("png");
    assert ToLower("png") == "png";
  }
}
