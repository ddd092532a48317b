/** The names the dashboard gives its exports: the session name with its white
    space collapsed, the file-name affixes of each export button, and the
    per-image names of the package export. */
module ExportNames {
  import opened Records

  /** JavaScript's `\s`: the white-space and line-terminator code points. */
  predicate IsSpace(c: char)
  {
    var n := c as int;
    || 9 <= n <= 13 || n == 0x20 || n == 0xA0 || n == 0x1680
    || 0x2000 <= n <= 0x200A || n == 0x2028 || n == 0x2029
    || n == 0x202F || n == 0x205F || n == 0x3000 || n == 0xFEFF
  }

  predicate SpaceFree(s: string)
  {
    forall i :: 0 <= i < |s| ==> !IsSpace(s[i])
  }

  /** `s` without its leading white space. */
  function SkipSpaces(s: string): (r: string)
    ensures |r| <= |s|
    ensures r == [] || !IsSpace(r[0])
  {
    if s != [] && IsSpace(s[0]) then SkipSpaces(s[1..]) else s
  }

  /** What is skipped is a run of white space at the front, and the rest is kept. */
  lemma {:induction false} SkipSpacesStrips(s: string)
    ensures SkipSpaces(s) == s[|s| - |SkipSpaces(s)|..]
    ensures forall i :: 0 <= i < |s| - |SkipSpaces(s)| ==> IsSpace(s[i])
    decreases |s|
  {
    if s != [] && IsSpace(s[0]) {
      SkipSpacesStrips(s[1..]);
      forall i | 1 <= i < |s| - |SkipSpaces(s)| ensures IsSpace(s[i]) {
        assert s[i] == s[1..][i - 1];
      }
    }
  }

  /** `s.replace(/\s+/g, '-')`: every run of white space becomes one '-'. */
  function Sanitize(s: string): (r: string)
    ensures |r| <= |s|
    decreases |s|
  {
    if s == [] then []
    else if IsSpace(s[0]) then "-" + Sanitize(SkipSpaces(s[1..]))
    else [s[0]] + Sanitize(s[1..])
  }

  /** The result holds no white space, and a name without white space is kept as it is. */
  lemma {:induction false} SanitizeSpaceFree(s: string)
    ensures SpaceFree(Sanitize(s))
    ensures SpaceFree(s) ==> Sanitize(s) == s
    decreases |s|
  {
    if s == [] {
    } else if IsSpace(s[0]) {
      var rest := SkipSpaces(s[1..]);
      SanitizeSpaceFree(rest);
      assert SpaceFree(['-']);
      ConcatSpaceFree(['-'], Sanitize(rest));
    } else {
      var tail := s[1..];
      SanitizeSpaceFree(tail);
      assert SpaceFree([s[0]]);
      ConcatSpaceFree([s[0]], Sanitize(tail));
      if SpaceFree(s) {
        assert SpaceFree(tail) by {
          forall i | 0 <= i < |tail| ensures !IsSpace(tail[i]) {
            assert tail[i] == s[i + 1];
          }
        }
        assert [s[0]] + tail == s;
      }
    }
  }

  lemma {:induction false} SkipRun(run: string, b: string)
    requires forall i :: 0 <= i < |run| ==> IsSpace(run[i])
    requires b == [] || !IsSpace(b[0])
    ensures SkipSpaces(run + b) == b
    decreases |run|
  {
    var x := run + b;
    if run == [] {
      assert x == b;
    } else {
      assert x[0] == run[0];
      assert x[1..] == run[1..] + b;
      SkipRun(run[1..], b);
    }
  }

  /** A string starting with white space: the whole run becomes one '-'. */
  lemma SanitizeLeadingRun(run: string, b: string)
    requires |run| > 0 && (forall i :: 0 <= i < |run| ==> IsSpace(run[i]))
    requires b == [] || !IsSpace(b[0])
    ensures Sanitize(run + b) == "-" + Sanitize(b)
  {
    var x := run + b;
    assert x[1..] == run[1..] + b;
    SkipRun(run[1..], b);
    assert IsSpace(x[0]);
  }

  /** A run of white space between two words, however long, gives one '-'. */
  lemma {:induction false} SanitizeRun(a: string, run: string, b: string)
    requires SpaceFree(a) && |run| > 0 && (forall i :: 0 <= i < |run| ==> IsSpace(run[i]))
    requires b == [] || !IsSpace(b[0])
    ensures Sanitize(a + run + b) == a + "-" + Sanitize(b)
    decreases |a|
  {
    if a == [] {
      assert a + run + b == run + b;
      SanitizeLeadingRun(run, b);
    } else {
      var x := a + run + b;
      var tail := a[1..];
      assert x[0] == a[0] && x[1..] == tail + run + b;
      assert SpaceFree(tail) by {
        forall i | 0 <= i < |tail| ensures !IsSpace(tail[i]) {
          assert tail[i] == a[i + 1];
        }
      }
      SanitizeRun(tail, run, b);
      assert a == [a[0]] + tail;
    }
  }

  /** The six export buttons' file kinds. */
  datatype ExportFormat = Html | Json | Markdown | ChatGpt | Text | Manifest

  /** What an export's file name starts with. */
  function NamePrefix(format: ExportFormat): string
  {
    match format
    case Html => "screenshots-"
    case Json => "screenshots-"
    case Markdown => "screenshots-"
    case ChatGpt => "chatgpt-screenshots-"
    case Text => "screenshot-descriptions-"
    case Manifest => "manifest-"
  }

  /** What follows the session name: the clock value, for three of the kinds, and the extension. */
  function NameSuffix(format: ExportFormat, stamp: string): string
  {
    match format
    case Html => ".html"
    case Json => ".json"
    case Markdown => ".md"
    case ChatGpt => "-" + stamp + ".html"
    case Text => "-" + stamp + ".txt"
    case Manifest => "-" + stamp + ".txt"
  }

  /** The download name of an export for the session name; None when the
      name is undefined, where `sessionName.replace` throws. */
  function ExportFileName(format: ExportFormat, sessionName: Option<string>, now: nat): (r: Option<string>)
    ensures r.Some? <==> sessionName.Some?
    ensures r.Some? ==> |r.value| >= |NamePrefix(format)| + |NameSuffix(format, NatToString(now))|
    ensures r.Some? ==> r.value[..|NamePrefix(format)|] == NamePrefix(format)
    ensures r.Some? ==> r.value[|r.value| - |NameSuffix(format, NatToString(now))|..] == NameSuffix(format, NatToString(now))
    ensures r.Some? ==>
              r.value[|NamePrefix(format)|..|r.value| - |NameSuffix(format, NatToString(now))|] == Sanitize(sessionName.value)
  {
    if sessionName.None? then None
    else
      var prefix, middle, suffix := NamePrefix(format), Sanitize(sessionName.value), NameSuffix(format, NatToString(now));
      assert (prefix + middle + suffix)[|prefix|..|prefix| + |middle|] == middle;
      Some(prefix + middle + suffix)
  }

  lemma DigitsSpaceFree(n: nat)
    ensures SpaceFree(NatToString(n))
  {
    var s := NatToString(n);
    forall i | 0 <= i < |s| ensures !IsSpace(s[i]) {
      assert IsDigit(s[i]);
    }
  }

  lemma ConcatSpaceFree(a: string, b: string)
    requires SpaceFree(a) && SpaceFree(b)
    ensures SpaceFree(a + b)
  {
    forall i | 0 <= i < |a + b| ensures !IsSpace((a + b)[i]) {
      if i >= |a| {
        assert (a + b)[i] == b[i - |a|];
      }
    }
  }

  lemma PrefixLiteralsSpaceFree()
    ensures SpaceFree("screenshots-") && SpaceFree("chatgpt-screenshots-")
    ensures SpaceFree("screenshot-descriptions-") && SpaceFree("manifest-")
  {
  }

  lemma SuffixLiteralsSpaceFree()
    ensures SpaceFree(".html") && SpaceFree(".json") && SpaceFree(".md") && SpaceFree(".txt") && SpaceFree("-")
  {
  }

  lemma AffixesSpaceFree(format: ExportFormat, stamp: string)
    requires SpaceFree(stamp)
    ensures SpaceFree(NamePrefix(format)) && SpaceFree(NameSuffix(format, stamp))
  {
    PrefixLiteralsSpaceFree();
    SuffixLiteralsSpaceFree();
    match format
    case Html =>
    case Json =>
    case Markdown =>
    case ChatGpt =>
      ConcatSpaceFree("-", stamp);
      ConcatSpaceFree("-" + stamp, ".html");
    case Text =>
      ConcatSpaceFree("-", stamp);
      ConcatSpaceFree("-" + stamp, ".txt");
    case Manifest =>
      ConcatSpaceFree("-", stamp);
      ConcatSpaceFree("-" + stamp, ".txt");
  }

  /** Export file names hold no white space, whatever the session's name. */
  lemma ExportFileNameSpaceFree(format: ExportFormat, sessionName: Option<string>, now: nat)
    ensures ExportFileName(format, sessionName, now).Some? <==> sessionName.Some?
    ensures sessionName.Some? ==> SpaceFree(ExportFileName(format, sessionName, now).value)
  {
    if sessionName.Some? {
      var stamp := NatToString(now);
      DigitsSpaceFree(now);
      AffixesSpaceFree(format, stamp);
      SanitizeSpaceFree(sessionName.value);
      ConcatSpaceFree(NamePrefix(format), Sanitize(sessionName.value));
      ConcatSpaceFree(NamePrefix(format) + Sanitize(sessionName.value), NameSuffix(format, stamp));
    }
  }

  /** `compress ? '.jpg' : '.png'`. */
  function Extension(compress: bool): (ext: string)
    ensures compress ==> ext == ".jpg"
    ensures !compress ==> ext == ".png"
  {
    if compress then ".jpg" else ".png"
  }

  /** `screenshot-${n}${extension}`. */
  function PackageFileName(n: nat, ext: string): (name: string)
    ensures |name| == 11 + |NatToString(n)| + |ext|
    ensures name[..11] == "screenshot-"
    ensures name[11..11 + |NatToString(n)|] == NatToString(n)
    ensures name[11 + |NatToString(n)|..] == ext
  {
    var digits := NatToString(n);
    assert ("screenshot-" + digits + ext)[11..11 + |digits|] == digits;
    "screenshot-" + digits + ext
  }

  /** Different positions give different package file names. */
  lemma PackageNamesDistinct(i: nat, j: nat, ext: string)
    requires i != j
    ensures PackageFileName(i, ext) != PackageFileName(j, ext)
  {
    ClockIdsDistinct(i, j);
    var a, b, p := NatToString(i), NatToString(j), "screenshot-";
    if |a| != |b| {
      assert |PackageFileName(i, ext)| != |PackageFileName(j, ext)|;
    } else {
      assert (p + a + ext)[|p|..|p| + |a|] == a;
      assert (p + b + ext)[|p|..|p| + |b|] == b;
    }
  }

  /** `pattern` occurs in `s` at position `i`. */
  predicate OccursAt(s: string, pattern: string, i: int)
  {
    0 <= i <= |s| - |pattern| && s[i..i + |pattern|] == pattern
  }

  /** `pattern` occurs in `s` at `i` and at no earlier position. */
  predicate FirstOccurrence(s: string, pattern: string, i: int)
  {
    OccursAt(s, pattern, i) && forall j :: 0 <= j < i ==> !OccursAt(s, pattern, j)
  }

  /** A first occurrence past the head of `s` is a first occurrence in its tail. */
  lemma FirstOccurrenceShifts(s: string, pattern: string, i: int)
    requires 0 < |pattern| <= |s| && s[..|pattern|] != pattern
    requires FirstOccurrence(s, pattern, i)
    ensures 0 < i && FirstOccurrence(s[1..], pattern, i - 1)
  {
    assert i != 0;
    assert s[1..][i - 1..i - 1 + |pattern|] == s[i..i + |pattern|];
    forall j | 0 <= j < i - 1
      ensures !OccursAt(s[1..], pattern, j)
    {
      if OccursAt(s[1..], pattern, j) {
        assert s[1..][j..j + |pattern|] == s[j + 1..j + 1 + |pattern|];
        assert OccursAt(s, pattern, j + 1);
      }
    }
  }

  /** Replacing at `i - 1` in the tail of `s` and putting the head back replaces at `i` in `s`. */
  lemma SplitShifts(s: string, n: nat, replacement: string, i: int)
    requires 0 < i && i + n <= |s|
    ensures [s[0]] + (s[1..][..i - 1] + replacement + s[1..][i - 1 + n..]) == s[..i] + replacement + s[i + n..]
  {
    assert s[..i] == [s[0]] + s[1..][..i - 1];
    assert s[i + n..] == s[1..][i - 1 + n..];
  }

  /** `filename.replace('.png', '.jpg')`: only the first occurrence is replaced. */
  function ReplaceFirst(s: string, pattern: string, replacement: string): (r: string)
    requires |pattern| > 0
    ensures (forall i :: !OccursAt(s, pattern, i)) ==> r == s
    ensures |replacement| == |pattern| ==> |r| == |s|
    decreases |s|
  {
    if |s| < |pattern| then s
    else if s[..|pattern|] == pattern then
      assert OccursAt(s, pattern, 0);
      replacement + s[|pattern|..]
    else
      var rest := ReplaceFirst(s[1..], pattern, replacement);
      assert forall i :: OccursAt(s[1..], pattern, i) ==> OccursAt(s, pattern, i + 1) by {
        forall i | OccursAt(s[1..], pattern, i)
          ensures OccursAt(s, pattern, i + 1)
        {
          assert s[1..][i..i + |pattern|] == s[i + 1..i + 1 + |pattern|];
        }
      }
      [s[0]] + rest
  }

  /** `ReplaceFirst` puts `replacement` in place of the first occurrence of `pattern`. */
  lemma {:induction false} ReplaceFirstAt(s: string, pattern: string, replacement: string, i: int)
    requires |pattern| > 0 && FirstOccurrence(s, pattern, i)
    ensures ReplaceFirst(s, pattern, replacement) == s[..i] + replacement + s[i + |pattern|..]
    decreases |s|
  {
    if s[..|pattern|] != pattern {
      FirstOccurrenceShifts(s, pattern, i);
      var tail := s[1..];
      ReplaceFirstAt(tail, pattern, replacement, i - 1);
      ReplaceFirstSkips(s, pattern, replacement);
      SplitShifts(s, |pattern|, replacement, i);
    } else {
      FirstOccurrenceAtHead(s, pattern, i);
      ReplaceFirstHead(s, pattern, replacement);
    }
  }

  /** Where `s` starts with `pattern`, that is its first occurrence. */
  lemma FirstOccurrenceAtHead(s: string, pattern: string, i: int)
    requires 0 < |pattern| <= |s| && s[..|pattern|] == pattern
    requires FirstOccurrence(s, pattern, i)
    ensures i == 0
  {
    assert OccursAt(s, pattern, 0);
  }

  /** Where `s` does not start with `pattern`, its head is kept and the search goes on in its tail. */
  lemma ReplaceFirstSkips(s: string, pattern: string, replacement: string)
    requires 0 < |pattern| <= |s| && s[..|pattern|] != pattern
    ensures ReplaceFirst(s, pattern, replacement) == [s[0]] + ReplaceFirst(s[1..], pattern, replacement)
  {
  }

  /** Where `s` starts with `pattern`, that occurrence is the one replaced. */
  lemma ReplaceFirstHead(s: string, pattern: string, replacement: string)
    requires 0 < |pattern| <= |s| && s[..|pattern|] == pattern
    ensures ReplaceFirst(s, pattern, replacement) == s[..0] + replacement + s[0 + |pattern|..]
  {
    assert s[..0] == [];
  }



  /** The name `downloadScreenshot` gives the file. */
  function DownloadName(fileName: string, compress: bool): (r: string)
    ensures !compress ==> r == fileName
    ensures |r| == |fileName|
    ensures (forall i :: !OccursAt(fileName, ".png", i)) ==> r == fileName
  {
    if compress then ReplaceFirst(fileName, ".png", ".jpg") else fileName
  }

  /** Under compression the first ".png" of the name becomes ".jpg". */
  lemma DownloadNameAt(fileName: string, i: int)
    requires FirstOccurrence(fileName, ".png", i)
    ensures DownloadName(fileName, true) == fileName[..i] + ".jpg" + fileName[i + 4..]
  {
    ReplaceFirstAt(fileName, ".png", ".jpg", i);
  }


  /** Each download is saved under the name the manifest gives it. */
  lemma DownloadNameMatchesManifest(n: nat, compress: bool)
    ensures DownloadName(PackageFileName(n, Extension(compress)), compress) == PackageFileName(n, Extension(compress))
  {
    if compress {
      var s := PackageFileName(n, ".jpg");
      var digits := NatToString(n);
      assert |s| == 15 + |digits|;
      forall i | 0 <= i <= |s| - 4
        ensures !OccursAt(s, ".png", i)
      {
        if i < 11 + |digits| {
          assert s[i] != '.' by {
            if i < 11 {
              assert s[i] == "screenshot-"[i];
            } else {
              assert s[i] == digits[i - 11];
              assert IsDigit(digits[i - 11]);
            }
          }
          assert s[i..i + 4][0] == s[i];
        } else {
          assert i == 11 + |digits|;
          assert s[i..i + 4] == ".jpg";
        }
      }
    }
  }
}
