/** Report numbering: figure files are named figure<N>.png; a new image generator
    continues after the highest number already in its directory, every saved image
    takes the next number, and every logged issue takes the next issue number. The
    directory is abstracted as the list of its file names. */
module Reporting {
  import opened Wrappers

  predicate IsDigit(c: char)
  {
    '0' <= c <= '9'
  }

  predicate AllDigits(s: string)
  {
    forall i :: 0 <= i < |s| ==> IsDigit(s[i])
  }

  /** The value of a decimal digit string, as int() reads it (leading zeros allowed). */
  function DigitsValue(s: string): nat
    requires AllDigits(s)
  {
    if |s| == 0 then 0
    else 10 * DigitsValue(s[..|s| - 1]) + ((s[|s| - 1] as int) - ('0' as int))
  }

  function Digit(d: nat): (c: char)
    requires d < 10
    ensures IsDigit(c) && (c as int) - ('0' as int) == d
  {
    (('0' as int) + d) as char
  }

  /** str(n): the decimal digits of n without leading zeros. */
  function NatToString(n: nat): (s: string)
    ensures |s| > 0 && AllDigits(s)
  {
    if n < 10 then [Digit(n)] else NatToString(n / 10) + [Digit(n % 10)]
  }

  /** int(str(n)) == n. */
  lemma {:induction false} DigitsRoundTrip(n: nat)
    ensures DigitsValue(NatToString(n)) == n
  {
    if n >= 10 {
      var s := NatToString(n);
      assert s[..|s| - 1] == NatToString(n / 10);
      DigitsRoundTrip(n / 10);
    }
  }

  const BaseName := "figure"
  const Extension := ".png"

  /** The file name save_image writes for image number n. */
  function FigureName(n: nat): string
  {
    BaseName + NatToString(n) + Extension
  }

  /** The glob figure[0-9]*.png over a bare file name. */
  predicate MatchesFigureGlob(name: string)
  {
    && |name| >= |BaseName| + 1 + |Extension|
    && name[..|BaseName|] == BaseName
    && IsDigit(name[|BaseName|])
    && name[|name| - |Extension|..] == Extension
  }

  /** ".png" starts at position q. */
  predicate PngAt(name: string, q: int)
  {
    0 <= q && q + |Extension| <= |name| && name[q..q + |Extension|] == Extension
  }

  /** ".png" can only start at a full stop. */
  lemma PngStartsWithDot(name: string, q: int)
    ensures PngAt(name, q) ==> name[q] == '.'
  {
    if PngAt(name, q) {
      assert name[q] == name[q..q + |Extension|][0];
    }
  }

  /** The first occurrence of ".png" at or after position i. */
  function FirstPngFrom(name: string, i: nat): (r: Option<nat>)
    requires i <= |name|
    ensures r.Some? ==> i <= r.value && PngAt(name, r.value)
    ensures r.Some? ==> forall q :: i <= q < r.value ==> !PngAt(name, q)
    ensures r.None? ==> forall q :: i <= q ==> !PngAt(name, q)
    decreases |name| - i
  {
    if i + |Extension| > |name| then None
    else if PngAt(name, i) then Some(i)
    else FirstPngFrom(name, i + 1)
  }

  /** The start of the run of digits that ends at position q. */
  function RunStart(name: string, q: nat): (p: nat)
    requires q <= |name|
    ensures p <= q
    ensures AllDigits(name[p..q])
    ensures p == 0 || !IsDigit(name[p - 1])
  {
    if q == 0 || !IsDigit(name[q - 1]) then q
    else
      var p := RunStart(name, q - 1);
      assert name[p..q] == name[p..q - 1] + [name[q - 1]];
      p
  }

  /** The number of a figure file: the regular expression [0-9]*(?=\.png) finds the
      run of digits just before the first ".png"; an empty run fails to parse and the
      name is skipped. */
  function FigureNumber(name: string): (r: Option<nat>)
    ensures FirstPngFrom(name, 0).None? ==> r.None?
    ensures r.Some? ==> FirstPngFrom(name, 0).Some?
                        && var q := FirstPngFrom(name, 0).value;
                           exists p :: 0 <= p < q && AllDigits(name[p..q]) && r.value == DigitsValue(name[p..q])
  {
    match FirstPngFrom(name, 0)
    case None => None
    case Some(q) =>
      var p := RunStart(name, q);
      if p == q then None else Some(DigitsValue(name[p..q]))
  }

  /** The run of digits that ends at q starts at p when p bounds it. */
  lemma {:induction false} RunStartIs(name: string, p: nat, q: nat)
    requires p <= q <= |name|
    requires forall i :: p <= i < q ==> IsDigit(name[i])
    requires p == 0 || !IsDigit(name[p - 1])
    ensures RunStart(name, q) == p
    decreases q
  {
    if q > p {
      RunStartIs(name, p, q - 1);
    }
  }

  /** Every file save_image writes matches the glob and is read back with its own
      number. */
  lemma FigureNameRoundTrip(n: nat)
    ensures MatchesFigureGlob(FigureName(n))
    ensures FigureNumber(FigureName(n)) == Some(n)
  {
    var ds := NatToString(n);
    var name := FigureName(n);
    var q := |BaseName| + |ds|;
    assert name[..|BaseName|] == BaseName;
    assert name[|BaseName|..q] == ds;
    assert name[q..] == Extension;
    assert name[|BaseName|] == ds[0];
    forall i | 0 <= i < q ensures !PngAt(name, i) {
      assert name[i] != '.' by {
        if i < |BaseName| { assert name[i] == BaseName[i]; } else { assert name[i] == ds[i - |BaseName|]; }
      }
      PngStartsWithDot(name, i);
    }
    assert PngAt(name, q);
    assert FirstPngFrom(name, 0) == Some(q);
    forall i | |BaseName| <= i < q ensures IsDigit(name[i]) {
      assert name[i] == ds[i - |BaseName|];
    }
    assert name[|BaseName| - 1] == 'e';
    RunStartIs(name, |BaseName|, q);
    DigitsRoundTrip(n);
  }

  /** The names matching the glob, in listing order. */
  function Matching(names: seq<string>): (r: seq<string>)
    ensures forall x :: x in r <==> x in names && MatchesFigureGlob(x)
  {
    if |names| == 0 then []
    else Matching(names[..|names| - 1]) + (if MatchesFigureGlob(names[|names| - 1]) then [names[|names| - 1]] else [])
  }

  /** The numbers of the names that parse, in listing order. */
  function Parsed(names: seq<string>): (r: seq<nat>)
    ensures forall m :: m in r <==> exists x :: x in names && FigureNumber(x) == Some(m)
  {
    if |names| == 0 then []
    else
      var last := names[|names| - 1];
      var front := names[..|names| - 1];
      assert forall x :: x in names <==> x in front || x == last;
      Parsed(front) + (match FigureNumber(last) case Some(m) => [m] case None => [])
  }

  function Max(xs: seq<nat>): (m: nat)
    requires |xs| > 0
    ensures m in xs && forall x :: x in xs ==> x <= m
  {
    if |xs| == 1 then xs[0]
    else
      var m := Max(xs[..|xs| - 1]);
      assert forall x :: x in xs ==> x in xs[..|xs| - 1] || x == xs[|xs| - 1];
      if xs[|xs| - 1] > m then xs[|xs| - 1] else m
  }

  datatype ReportError =
    | NotADirectory  // ValueError: the save directory is not a directory
    | EmptyMaximum   // ValueError: max() of no numbers

  /** Some listed file matches the glob and is read as number m. */
  ghost predicate Numbered(names: seq<string>, m: nat)
  {
    exists x :: x in names && MatchesFigureGlob(x) && FigureNumber(x) == Some(m)
  }

  /** The numbers of the matching names are exactly the parsed numbers. */
  lemma NumberedIsParsed(names: seq<string>)
    ensures forall m: nat :: Numbered(names, m) <==> m in Parsed(Matching(names))
  {
    forall m: nat ensures Numbered(names, m) <==> m in Parsed(Matching(names)) {
      if m in Parsed(Matching(names)) {
        var x :| x in Matching(names) && FigureNumber(x) == Some(m);
        assert x in names && MatchesFigureGlob(x);
      }
    }
  }

  /** get_highest_img_number over the directory listing: 0 when no file matches the
      glob; the largest parsed number otherwise; and max() of nothing raises when
      files match but none parses. */
  function HighestImgNumber(names: seq<string>): (r: Result<nat, ReportError>)
    ensures (forall x :: x in names ==> !MatchesFigureGlob(x)) ==> r == Success(0)
    ensures r.Failure? <==>
              (exists x :: x in names && MatchesFigureGlob(x)) && forall m: nat :: !Numbered(names, m)
    ensures r.Failure? ==> r.error == EmptyMaximum
    ensures r.Success? && (exists x :: x in names && MatchesFigureGlob(x)) ==> Numbered(names, r.value)
    ensures r.Success? ==> forall m: nat :: Numbered(names, m) ==> m <= r.value
  {
    var matched := Matching(names);
    if |matched| == 0 then Success(0)
    else
      var numbers := Parsed(matched);
      NumberedIsParsed(names);
      if |numbers| == 0 then
        assert matched[0] in matched;
        Failure(EmptyMaximum)
      else
        Success(Max(numbers))
  }

  /** The image generator's counter: the number the next saved image takes. */
  datatype ImageGenerator = ImageGenerator(imageNumber: nat)

  /** FDDImageGeneration(save_directory): reject a non-directory; otherwise start one
      past the highest existing figure. */
  function NewImageGenerator(isDirectory: bool, names: seq<string>): (r: Result<ImageGenerator, ReportError>)
    ensures !isDirectory ==> r == Failure(NotADirectory)
    ensures isDirectory ==> (r.Success? <==> HighestImgNumber(names).Success?)
    ensures r.Success? ==> r.value.imageNumber == HighestImgNumber(names).value + 1
    ensures r.Success? ==> forall m: nat :: Numbered(names, m) ==> m < r.value.imageNumber
  {
    if !isDirectory then Failure(NotADirectory)
    else
      match HighestImgNumber(names)
      case Failure(e) => Failure(e)
      case Success(h) => Success(ImageGenerator(h + 1))
  }

  /** save_image: write figure<image_number>.png, then advance the counter by one. */
  function SaveImage(g: ImageGenerator): (r: (ImageGenerator, string))
    ensures r.0.imageNumber == g.imageNumber + 1
    ensures r.1 == FigureName(r.0.imageNumber - 1)
  {
    (ImageGenerator(g.imageNumber + 1), FigureName(g.imageNumber))
  }

  /** The saved file matches the figure glob and parses back to the number it was
      saved under. */
  lemma SavedImageParses(g: ImageGenerator)
    ensures MatchesFigureGlob(SaveImage(g).1)
    ensures FigureNumber(SaveImage(g).1) == Some(g.imageNumber)
  {
    FigureNameRoundTrip(g.imageNumber);
  }

  /** A generator numbered above every figure in the directory, as a fresh one is,
      never saves over a figure already there, now or after any number of earlier
      saves. */
  lemma SavesNeverOverwrite(names: seq<string>, g: ImageGenerator, n: nat)
    requires forall m: nat :: Numbered(names, m) ==> m < g.imageNumber
    requires n >= g.imageNumber
    ensures FigureName(n) !in names
  {
    FigureNameRoundTrip(n);
    assert FigureName(n) in names ==> Numbered(names, n);
  }

  /** One log entry: the issue number, the fault message and the figure it cites. */
  datatype LogEntry = LogEntry(issue: nat, message: string, figure: Option<nat>)

  /** The reporter: the next issue number, the image generator, the log so far and
      the numbers of the figures written so far (figure k is the file FigureName(k)). */
  datatype Reporter = Reporter(logIndex: nat, images: ImageGenerator, log: seq<LogEntry>, saved: seq<nat>)

  /** FDDReporting(log_filepath): issue numbering starts at 1. */
  function NewReporter(isDirectory: bool, names: seq<string>): (r: Result<Reporter, ReportError>)
    ensures r.Success? <==> NewImageGenerator(isDirectory, names).Success?
    ensures r.Success? ==> r.value.logIndex == 1 && r.value.log == [] && r.value.saved == []
    ensures r.Success? ==> r.value.images == NewImageGenerator(isDirectory, names).value
  {
    match NewImageGenerator(isDirectory, names)
    case Failure(e) => Failure(e)
    case Success(g) => Success(Reporter(1, g, [], []))
  }

  /** log_exception: optionally save an image, then append an entry that cites
      image_number - 1, and advance the issue number. */
  function LogException(rep: Reporter, message: string, createImage: bool): (r: Reporter)
    ensures r.logIndex == rep.logIndex + 1
    ensures |r.log| == |rep.log| + 1 && r.log[..|rep.log|] == rep.log
    ensures r.log[|rep.log|].issue == rep.logIndex && r.log[|rep.log|].message == message
    ensures createImage ==> r.saved == rep.saved + [rep.images.imageNumber]
    ensures createImage ==> r.log[|rep.log|].figure == Some(rep.images.imageNumber)
    ensures createImage ==> r.images.imageNumber == rep.images.imageNumber + 1
    ensures !createImage ==> r.saved == rep.saved && r.images == rep.images && r.log[|rep.log|].figure.None?
  {
    if createImage then
      var (images, _) := SaveImage(rep.images);
      Reporter(rep.logIndex + 1, images, rep.log + [LogEntry(rep.logIndex, message, Some(images.imageNumber - 1))],
               rep.saved + [images.imageNumber - 1])
    else
      Reporter(rep.logIndex + 1, rep.images, rep.log + [LogEntry(rep.logIndex, message, None)], rep.saved)
  }

  /** Logging a sequence of faults, each with an image. */
  function LogAll(rep: Reporter, messages: seq<string>): (r: Reporter)
    ensures |r.log| == |rep.log| + |messages| && r.log[..|rep.log|] == rep.log
  {
    if |messages| == 0 then rep
    else LogException(LogAll(rep, messages[..|messages| - 1]), messages[|messages| - 1], true)
  }

  /** After logging k faults from a fresh reporter, the issue counter has advanced
      by k, the image counter by k, and k entries and k images are recorded. */
  lemma {:induction false} LogAllCounters(rep: Reporter, messages: seq<string>)
    requires rep.logIndex == 1 && rep.log == [] && rep.saved == []
    ensures LogAll(rep, messages).logIndex == 1 + |messages|
    ensures LogAll(rep, messages).images.imageNumber == rep.images.imageNumber + |messages|
    ensures |LogAll(rep, messages).log| == |messages|
    ensures |LogAll(rep, messages).saved| == |messages|
  {
    if |messages| > 0 {
      LogAllCounters(rep, messages[..|messages| - 1]);
    }
  }

  /** The i-th entry logged from a fresh reporter is issue i + 1 and cites figure
      start + i. */
  lemma {:induction false} LogAllEntry(rep: Reporter, messages: seq<string>, i: nat)
    requires rep.logIndex == 1 && rep.log == [] && rep.saved == []
    requires i < |messages|
    ensures |LogAll(rep, messages).log| == |messages|
    ensures LogAll(rep, messages).log[i] == LogEntry(i + 1, messages[i], Some(rep.images.imageNumber + i))
    decreases |messages|
  {
    var n := |messages| - 1;
    var front := messages[..n];
    LogAllCounters(rep, front);
    var prev := LogAll(rep, front);
    var r := LogException(prev, messages[n], true);
    assert LogAll(rep, messages) == r;
    if i < n {
      LogAllEntry(rep, front, i);
      assert r.log[i] == r.log[..n][i];
      assert front[i] == messages[i];
    } else {
      var e := r.log[n];
      assert e.issue == n + 1 && e.message == messages[n];
      assert e.figure == Some(rep.images.imageNumber + n);
    }
  }

  /** After logging k faults from a fresh reporter, the issues are numbered 1..k in
      order and each cites the image saved for it, numbered consecutively from the
      generator's start. */
  lemma {:induction false} LogAllNumbering(rep: Reporter, messages: seq<string>)
    requires rep.logIndex == 1 && rep.log == [] && rep.saved == []
    ensures |LogAll(rep, messages).log| == |messages|
    ensures forall i :: 0 <= i < |messages| ==>
              LogAll(rep, messages).log[i] == LogEntry(i + 1, messages[i], Some(rep.images.imageNumber + i))
  {
    LogAllCounters(rep, messages);
    forall i | 0 <= i < |messages|
      ensures LogAll(rep, messages).log[i] == LogEntry(i + 1, messages[i], Some(rep.images.imageNumber + i))
    {
      LogAllEntry(rep, messages, i);
    }
  }

  /** After logging k faults from a fresh reporter, the figures written are numbered
      consecutively from the generator's start. */
  lemma {:induction false} LogAllImages(rep: Reporter, messages: seq<string>)
    requires rep.logIndex == 1 && rep.log == [] && rep.saved == []
    ensures |LogAll(rep, messages).saved| == |messages|
    ensures forall i :: 0 <= i < |messages| ==> LogAll(rep, messages).saved[i] == rep.images.imageNumber + i
  {
    LogAllCounters(rep, messages);
    if |messages| > 0 {
      var n := |messages| - 1;
      var front := messages[..n];
      LogAllImages(rep, front);
      LogAllCounters(rep, front);
    }
  }

  /** No figure written while logging, however many faults are logged, overwrites a
      figure that was in the directory when the reporter was created: a fresh reporter
      starts with an empty log and an image number above every existing figure. */
  lemma LoggedFiguresAreNew(names: seq<string>, rep: Reporter, messages: seq<string>)
    requires rep.logIndex == 1 && rep.log == [] && rep.saved == []
    requires forall m: nat :: Numbered(names, m) ==> m < rep.images.imageNumber
    ensures forall i :: 0 <= i < |LogAll(rep, messages).saved| ==> FigureName(LogAll(rep, messages).saved[i]) !in names
  {
    LogAllImages(rep, messages);
    var saved := LogAll(rep, messages).saved;
    forall i | 0 <= i < |saved|
      ensures FigureName(saved[i]) !in names
    {
      SavesNeverOverwrite(names, rep.images, saved[i]);
    }
  }

  /** The separator before label idx: ", " at even positions, a newline at odd ones. */
  function Separator(idx: nat): string
  {
    if idx % 2 == 0 then ", " else "\n"
  }

  /** The y-axis label: every label preceded by its separator. */
  function YLabel(labels: seq<string>): string
  {
    if |labels| == 0 then ""
    else YLabel(labels[..|labels| - 1]) + Separator(|labels| - 1) + labels[|labels| - 1]
  }

  /** The label builder's loop over enumerate(dependent_labels). */
  method BuildYLabel(labels: seq<string>) returns (ylabel: string)
    ensures ylabel == YLabel(labels)
  {
    ylabel := "";
    for idx := 0 to |labels|
      invariant ylabel == YLabel(labels[..idx])
    {
      assert labels[..idx + 1][..idx] == labels[..idx];
      if idx % 2 == 0 {
        ylabel := ylabel + ", " + labels[idx];
      }
      if idx % 2 == 1 {
        ylabel := ylabel + "\n" + labels[idx];
      }
    }
    assert labels[..|labels|] == labels;
  }

  function TotalLength(labels: seq<string>): nat
  {
    if |labels| == 0 then 0 else TotalLength(labels[..|labels| - 1]) + |labels[|labels| - 1]|
  }

  function NewlineCount(s: string): nat
  {
    if |s| == 0 then 0 else NewlineCount(s[..|s| - 1]) + (if s[|s| - 1] == '\n' then 1 else 0)
  }

  lemma {:induction false} NewlineCountAppend(a: string, b: string)
    ensures NewlineCount(a + b) == NewlineCount(a) + NewlineCount(b)
    decreases |b|
  {
    if |b| > 0 {
      assert (a + b)[..|a + b| - 1] == a + b[..|b| - 1];
      NewlineCountAppend(a, b[..|b| - 1]);
    } else {
      assert a + b == a;
    }
  }

  /** The label of a non-empty list begins with ", ". */
  lemma {:induction false} YLabelLeadingComma(labels: seq<string>)
    requires |labels| > 0
    ensures |YLabel(labels)| >= 2 && YLabel(labels)[..2] == ", "
  {
    var front := labels[..|labels| - 1];
    if |front| > 0 {
      YLabelLeadingComma(front);
      var y := YLabel(front);
      assert YLabel(labels) == y + (Separator(|labels| - 1) + labels[|labels| - 1]);
      assert YLabel(labels)[..2] == y[..2];
    } else {
      assert YLabel(labels) == YLabel(front) + ", " + labels[0];
    }
  }

  /** Every label contributes its text plus two characters at even positions and one
      at odd positions. */
  lemma {:induction false} YLabelLength(labels: seq<string>)
    ensures |YLabel(labels)| == TotalLength(labels) + 2 * ((|labels| + 1) / 2) + |labels| / 2
  {
    if |labels| > 0 {
      YLabelLength(labels[..|labels| - 1]);
    }
  }

  /** When no label contains a newline, the label holds one newline per odd
      position. */
  lemma {:induction false} YLabelNewlines(labels: seq<string>)
    requires forall i :: 0 <= i < |labels| ==> NewlineCount(labels[i]) == 0
    ensures NewlineCount(YLabel(labels)) == |labels| / 2
  {
    if |labels| > 0 {
      var front := labels[..|labels| - 1];
      var last := labels[|labels| - 1];
      YLabelNewlines(front);
      var y := YLabel(front);
      NewlineCountAppend(y + Separator(|labels| - 1), last);
      NewlineCountAppend(y, Separator(|labels| - 1));
      assert NewlineCount(", ") == 0 by { assert ", "[..1] == ","; }
      assert NewlineCount("\n") == 1 by { assert "\n"[..0] == ""; }
    }
  }
}
