/** The destination-name transform of `BlobClient.DownloadBlob`: the source file name with every
    ".txt" replaced by "_DOWNLOADED.txt", as .NET's ordinal `String.Replace(string, string)` does
    it. The replace scans left to right; where the pattern starts it emits the replacement and
    resumes after the matched text, so occurrences do not overlap and the inserted text is never
    scanned again. */
module Naming {

  /** `s` begins with `p`. */
  predicate StartsWith(s: string, p: string) {
    p <= s
  }

  /** `s` contains `p` at some position. */
  predicate Contains(s: string, p: string) {
    exists i :: 0 <= i <= |s| && StartsWith(s[i..], p)
  }

  /** `s.Replace(pattern, replacement)` with ordinal comparison; .NET rejects an empty pattern.
      It scans left to right; where the pattern starts it emits the replacement and resumes after
      the matched text, otherwise it copies one character. A replacement at least as long as the
      pattern never shortens the string. */
  function Replace(s: string, pattern: string, replacement: string): (r: string)
    requires |pattern| > 0
    ensures |pattern| <= |replacement| ==> |s| <= |r|
    decreases |s|
  {
    if s == [] then []
    else if StartsWith(s, pattern) then replacement + Replace(s[|pattern|..], pattern, replacement)
    else [s[0]] + Replace(s[1..], pattern, replacement)
  }

  /** The number of non-overlapping occurrences of `pattern` in `s`, taken leftmost first. */
  function Occurrences(s: string, pattern: string): nat
    requires |pattern| > 0
    decreases |s|
  {
    if s == [] then 0
    else if StartsWith(s, pattern) then 1 + Occurrences(s[|pattern|..], pattern)
    else Occurrences(s[1..], pattern)
  }

  const TextExtension: string := ".txt"
  const DownloadedSuffix: string := "_DOWNLOADED.txt"

  /** The file `DownloadBlob` writes to: derived from `sourceFile` alone; the `destinationFile`
      argument is overwritten before it is read. Each ".txt" adds eleven characters. */
  function DownloadDestination(sourceFile: string, destinationFile: string): (r: string)
    ensures |r| == |sourceFile| + 11 * Occurrences(sourceFile, TextExtension)
    ensures !Contains(sourceFile, TextExtension) ==> r == sourceFile
  {
    ReplaceLength(sourceFile, TextExtension, DownloadedSuffix);
    NoOccurrence(sourceFile, TextExtension, DownloadedSuffix);
    Replace(sourceFile, TextExtension, DownloadedSuffix)
  }

  /** Each occurrence changes the length by the difference of the two strings' lengths. */
  lemma {:induction false} ReplaceLength(s: string, pattern: string, replacement: string)
    requires |pattern| > 0
    ensures |Replace(s, pattern, replacement)|
         == |s| + Occurrences(s, pattern) * (|replacement| - |pattern|)
    decreases |s|
  {
    if s != [] {
      if StartsWith(s, pattern) {
        var rest := s[|pattern|..];
        ReplaceLength(rest, pattern, replacement);
        MulStep(Occurrences(rest, pattern), |replacement| - |pattern|);
      } else {
        ReplaceLength(s[1..], pattern, replacement);
      }
    }
  }

  /** The distributive step of `ReplaceLength`, kept apart so the solver meets it alone. */
  lemma MulStep(n: nat, d: int)
    ensures (1 + n) * d == d + n * d
  {
  }

  /** The pattern is counted at least once exactly when it occurs somewhere, and a string in
      which it does not occur is left unchanged. */
  lemma {:induction false} NoOccurrence(s: string, pattern: string, replacement: string)
    requires |pattern| > 0
    ensures Occurrences(s, pattern) == 0 <==> !Contains(s, pattern)
    ensures !Contains(s, pattern) ==> Replace(s, pattern, replacement) == s
    decreases |s|
  {
    if s == [] {
      assert !StartsWith(s[0..], pattern);
    } else if StartsWith(s, pattern) {
      assert s[0..] == s;
    } else {
      NoOccurrence(s[1..], pattern, replacement);
      if Contains(s, pattern) {
        var i :| 0 <= i <= |s| && StartsWith(s[i..], pattern);
        assert i != 0 by { assert s[0..] == s; }
        assert s[1..][i - 1..] == s[i..];
      }
      if Contains(s[1..], pattern) {
        var i :| 0 <= i <= |s[1..]| && StartsWith(s[1..][i..], pattern);
        assert s[1..][i..] == s[i + 1..];
      }
    }
  }

  /** The first occurrence is replaced and the scan resumes right after it, on the original text:
      the replacement is not scanned again. With `a` free of matches, `a + pattern + b` becomes
      `a + replacement` followed by the replace of `b`, and holds one occurrence more than `b`. */
  lemma {:induction false} ReplaceFirst(s: string, a: string, pattern: string, b: string,
                                        replacement: string)
    requires |pattern| > 0 && s == a + pattern + b
    requires forall i :: 0 <= i < |a| ==> !StartsWith(s[i..], pattern)
    ensures Replace(s, pattern, replacement) == a + replacement + Replace(b, pattern, replacement)
    ensures Occurrences(s, pattern) == 1 + Occurrences(b, pattern)
    decreases |a|
  {
    if a == [] {
      assert StartsWith(s, pattern);
      assert s[|pattern|..] == b;
    } else {
      assert s[0..] == s;
      var t := s[1..];
      assert t == a[1..] + pattern + b;
      forall i | 0 <= i < |a[1..]|
        ensures !StartsWith(t[i..], pattern)
      {
        assert t[i..] == s[i + 1..];
      }
      ReplaceFirst(t, a[1..], pattern, b, replacement);
      assert [s[0]] + a[1..] == a;
    }
  }

  /** A prefix that does not contain the pattern's first character holds no match, whatever
      follows it. */
  lemma NoMatchBefore(s: string, a: string, pattern: string, b: string)
    requires |pattern| > 0 && s == a + pattern + b
    requires forall i :: 0 <= i < |a| ==> a[i] != pattern[0]
    ensures forall i :: 0 <= i < |a| ==> !StartsWith(s[i..], pattern)
  {
    forall i | 0 <= i < |a|
      ensures !StartsWith(s[i..], pattern)
    {
      assert s[i..][0] == a[i];
    }
  }

  /** A name with one ".txt" and no other '.' has the marker inserted before that ".txt". */
  lemma SingleOccurrence(stem: string, sourceFile: string)
    requires forall i :: 0 <= i < |stem| ==> stem[i] != '.'
    requires sourceFile == stem + TextExtension
    ensures Replace(sourceFile, TextExtension, DownloadedSuffix) == stem + DownloadedSuffix
  {
    assert sourceFile == stem + TextExtension + "";
    NoMatchBefore(sourceFile, stem, TextExtension, "");
    ReplaceFirst(sourceFile, stem, TextExtension, "", DownloadedSuffix);
  }

  /** Every occurrence is replaced, not only the last "extension": a name with two ".txt" and
      no other '.' (such as "a.txt.txt") gets the marker before each of them. */
  lemma TwoOccurrences(stem: string, middle: string, sourceFile: string)
    requires forall i :: 0 <= i < |stem| ==> stem[i] != '.'
    requires forall i :: 0 <= i < |middle| ==> middle[i] != '.'
    requires sourceFile == stem + TextExtension + middle + TextExtension
    ensures Replace(sourceFile, TextExtension, DownloadedSuffix)
         == stem + DownloadedSuffix + middle + DownloadedSuffix
  {
    var rest := middle + TextExtension;
    SingleOccurrence(middle, rest);
    assert sourceFile == stem + TextExtension + rest;
    NoMatchBefore(sourceFile, stem, TextExtension, rest);
    ReplaceFirst(sourceFile, stem, TextExtension, rest, DownloadedSuffix);
  }

  /** For example, "report.txt" is downloaded to "report_DOWNLOADED.txt", whatever destination
      the caller passed. (The transform is not idempotent: the ".txt" of the inserted suffix is an
      occurrence for a second call, which gives "report_DOWNLOADED_DOWNLOADED.txt".) */
  lemma ReportExample(sourceFile: string, destinationFile: string)
    requires sourceFile == "report.txt"
    ensures DownloadDestination(sourceFile, destinationFile) == "report_DOWNLOADED.txt"
  {
    SingleOccurrence("report", sourceFile);
  }
}
