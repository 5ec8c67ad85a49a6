/**
  The checks at the top of handleFileSelect: the name must match the
  regular expression `/\.(xlsx|xls)$/i`, then the size must not exceed 10 MiB.
 */
module Validation {

  /** 10 * 1024 * 1024 bytes. */
  const MaxFileSize: nat := 10 * 1024 * 1024

  /** A picked or dropped file, as far as the widget looks at it. */
  datatype File = File(name: string, size: nat)

  function LowerAscii(c: char): char
  {
    if 'A' <= c <= 'Z' then (c as int + 32) as char else c
  }

  function UpperAscii(c: char): char
  {
    if 'a' <= c <= 'z' then (c as int - 32) as char else c
  }

  /** `s` with every ASCII capital replaced by its small letter; other characters kept. */
  function Lowercase(s: string): (r: string)
    ensures |r| == |s|
    ensures forall i :: 0 <= i < |s| ==> r[i] == LowerAscii(s[i])
  {
    seq(|s|, i requires 0 <= i < |s| => LowerAscii(s[i]))
  }

  predicate EndsWith(s: string, suffix: string)
  {
    |suffix| <= |s| && s[|s| - |suffix|..] == suffix
  }

  /** The reading of the format rule: the ASCII-lowercased name ends in ".xlsx" or ".xls". */
  predicate HasSpreadsheetExtension(name: string)
  {
    EndsWith(Lowercase(name), ".xlsx") || EndsWith(Lowercase(name), ".xls")
  }

  /** A file the widget keeps: right extension and at most MaxFileSize bytes. */
  predicate Accepts(f: File)
  {
    HasSpreadsheetExtension(f.name) && f.size <= MaxFileSize
  }

  /*
    The regular expression as JavaScript runs it. Under the `i` flag without
    the `u` flag both sides of a character comparison are upper-cased, and a
    character outside ASCII is never folded onto an ASCII one; since every
    character of the pattern is ASCII, that is ASCII case folding.
   */

  predicate SameIgnoringCase(c: char, p: char)
  {
    UpperAscii(c) == UpperAscii(p)
  }

  /** The alternative `alt` (the dot included) matches at `p` and reaches the end of input, as `$` demands. */
  predicate AlternativeMatchesAt(name: string, p: nat, alt: string)
    requires p <= |name|
  {
    |name| - p == |alt| && forall k :: 0 <= k < |alt| ==> SameIgnoringCase(name[p + k], alt[k])
  }

  /** `\.(xlsx|xls)$` matches starting at position `p`; the alternatives are tried in the written order. */
  predicate PatternMatchesAt(name: string, p: nat)
    requires p <= |name|
  {
    AlternativeMatchesAt(name, p, ".xlsx") || AlternativeMatchesAt(name, p, ".xls")
  }

  /** `String.prototype.match` with a non-global pattern: try every start position from `from` on. */
  function SearchFrom(name: string, from: nat): (found: bool)
    requires from <= |name| + 1
    ensures found <==> exists p: nat :: from <= p <= |name| && PatternMatchesAt(name, p)
    decreases |name| + 1 - from
  {
    if from > |name| then false else PatternMatchesAt(name, from) || SearchFrom(name, from + 1)
  }

  /** Folding a character onto a small pattern letter (or the dot) two ways agrees. */
  lemma FoldingAgrees(c: char, p: char)
    requires p == '.' || 'a' <= p <= 'z'
    ensures SameIgnoringCase(c, p) <==> LowerAscii(c) == p
  {
  }

  /** An alternative matches at `p` exactly when the lowercased name ends in it there. */
  lemma AlternativeMatchesSuffix(name: string, alt: string)
    requires |alt| <= |name|
    requires forall k :: 0 <= k < |alt| ==> alt[k] == '.' || 'a' <= alt[k] <= 'z'
    ensures AlternativeMatchesAt(name, |name| - |alt|, alt) <==> EndsWith(Lowercase(name), alt)
  {
    var p := |name| - |alt|;
    var low := Lowercase(name);
    forall k | 0 <= k < |alt|
      ensures SameIgnoringCase(name[p + k], alt[k]) <==> low[p + k] == alt[k]
    {
      FoldingAgrees(name[p + k], alt[k]);
    }
    if EndsWith(low, alt) {
      forall k | 0 <= k < |alt|
        ensures low[p + k] == alt[k]
      {
        assert low[p..][k] == low[p + k];
      }
    }
    if AlternativeMatchesAt(name, p, alt) {
      assert forall k :: 0 <= k < |alt| ==> low[p..][k] == alt[k];
      assert low[p..] == alt;
    }
  }

  /** A name with a spreadsheet extension matches the regular expression at the start of that extension. */
  lemma ExtensionMatchesPattern(name: string)
    ensures HasSpreadsheetExtension(name) ==> SearchFrom(name, 0)
  {
    if EndsWith(Lowercase(name), ".xlsx") {
      AlternativeMatchesSuffix(name, ".xlsx");
      assert PatternMatchesAt(name, |name| - 5);
    } else if EndsWith(Lowercase(name), ".xls") {
      AlternativeMatchesSuffix(name, ".xls");
      assert PatternMatchesAt(name, |name| - 4);
    }
  }

  /** An alternative that matches somewhere matches at the end, so the lowercased name ends in it. */
  lemma MatchIsSuffix(name: string, p: nat, alt: string)
    requires p <= |name|
    requires forall k :: 0 <= k < |alt| ==> alt[k] == '.' || 'a' <= alt[k] <= 'z'
    requires AlternativeMatchesAt(name, p, alt)
    ensures EndsWith(Lowercase(name), alt)
  {
    assert p == |name| - |alt|;
    AlternativeMatchesSuffix(name, alt);
  }

  /** A match can only start where the extension starts, so the lowercased name ends in it. */
  lemma PatternMatchesExtension(name: string)
    ensures SearchFrom(name, 0) ==> HasSpreadsheetExtension(name)
  {
    if SearchFrom(name, 0) {
      var p: nat :| p <= |name| && PatternMatchesAt(name, p);
      if AlternativeMatchesAt(name, p, ".xlsx") {
        MatchIsSuffix(name, p, ".xlsx");
      } else {
        MatchIsSuffix(name, p, ".xls");
      }
    }
  }

  /** The regular expression matches exactly the names with a spreadsheet extension. */
  lemma PatternIffExtension(name: string)
    ensures SearchFrom(name, 0) <==> HasSpreadsheetExtension(name)
  {
    ExtensionMatchesPattern(name);
    PatternMatchesExtension(name);
  }

  datatype Rejection = WrongFormat | TooLarge

  datatype Verdict = Accepted | Rejected(reason: Rejection)

  /**
    The two checks in their fixed order: the format first, so a file failing
    both is reported as WrongFormat; the size only for a well-named file.
   */
  function Validate(f: File): (v: Verdict)
    ensures v.Accepted? <==> Accepts(f)
    ensures v == Rejected(WrongFormat) <==> !HasSpreadsheetExtension(f.name)
    ensures v == Rejected(TooLarge) <==> HasSpreadsheetExtension(f.name) && f.size > MaxFileSize
  {
    PatternIffExtension(f.name);
    if !SearchFrom(f.name, 0) then Rejected(WrongFormat)
    else if f.size > MaxFileSize then Rejected(TooLarge)
    else Accepted
  }

  /** The size limit is inclusive: 10485760 bytes pass, 10485761 do not. */
  lemma SizeLimitIsInclusive(name: string)
    requires HasSpreadsheetExtension(name)
    ensures Validate(File(name, 10485760)) == Accepted
    ensures Validate(File(name, 10485761)) == Rejected(TooLarge)
  {
  }

  /** A badly named file is reported for its format whatever its size. */
  lemma FormatReportedBeforeSize(name: string, size: nat, size': nat)
    requires !HasSpreadsheetExtension(name)
    ensures Validate(File(name, size)) == Validate(File(name, size')) == Rejected(WrongFormat)
  {
  }

  /** A name whose last character is neither an x nor an s in either case is never accepted. */
  lemma WrongLastLetterRejected(name: string)
    requires |name| >= 1 && LowerAscii(name[|name| - 1]) != 'x' && LowerAscii(name[|name| - 1]) != 's'
    ensures !SearchFrom(name, 0)
  {
    WrongLastLetterNoExtension(name);
    PatternIffExtension(name);
  }

  lemma WrongLastLetterNoExtension(name: string)
    requires |name| >= 1 && LowerAscii(name[|name| - 1]) != 'x' && LowerAscii(name[|name| - 1]) != 's'
    ensures !HasSpreadsheetExtension(name)
  {
    var low := Lowercase(name);
    assert low[|low| - 1] != 'x' && low[|low| - 1] != 's';
    if |low| >= 5 {
      assert low[|low| - 5..][4] != ".xlsx"[4];
    }
    if |low| >= 4 {
      assert low[|low| - 4..][3] != ".xls"[3];
    }
  }

  /** Names the pattern accepts, whatever the case of their letters. */
  lemma AcceptedNameExamples()
    ensures SearchFrom("Claims.XLSX", 0)
    ensures SearchFrom("a.Xls", 0)
    ensures SearchFrom(".xlsx", 0)
  {
    assert PatternMatchesAt("Claims.XLSX", 6);
    assert PatternMatchesAt("a.Xls", 1);
    assert PatternMatchesAt(".xlsx", 0);
  }

  /** Names the pattern refuses: a later extension, no dot, another format. */
  lemma RejectedNameExamples()
    ensures !SearchFrom("table.xlsx.txt", 0)
    ensures !SearchFrom("xlsx", 0)
    ensures !SearchFrom("report.csv", 0)
  {
    WrongLastLetterRejected("table.xlsx.txt");
    WrongLastLetterRejected("report.csv");
    PatternIffExtension("xlsx");
    assert Lowercase("xlsx")[0] == 'x';
  }
}
