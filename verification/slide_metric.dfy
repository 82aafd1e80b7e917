/** The slide-metric tool: a rendered HTML deck is split on "<section" and
    each fragment counts as one slide. The file read is abstracted into
    a flag (does the file exist) and the file's content. */
module SlideMetric {
  import opened Wrappers

  const SlideTag: Text := "<section"
  const CodeMarker: Text := "class=\"sourceCode\""
  const ImageMarker: Text := "<img"

  /** True when `sub` is a prefix of `s`. */
  predicate IsPrefix(sub: Text, s: Text) {
    |sub| <= |s| && s[..|sub|] == sub
  }

  /** Python's `sub in s` for strings. */
  predicate Contains(s: Text, sub: Text)
    decreases |s|
  {
    IsPrefix(sub, s) || (|s| > 0 && Contains(s[1..], sub))
  }

  /** Python's `s.split(sep)` for a non-empty separator: scan left to right
      and cut at every non-overlapping occurrence of `sep`. */
  function Split(s: Text, sep: Text): (parts: seq<Text>)
    requires |sep| > 0
    ensures |parts| >= 1
    decreases |s|
  {
    if |s| < |sep| then [s]
    else if IsPrefix(sep, s) then [[]] + Split(s[|sep|..], sep)
    else
      var rest := Split(s[1..], sep);
      [[s[0]] + rest[0]] + rest[1..]
  }

  /** The number of non-overlapping occurrences of `sep` in `s`, counted
      left to right (Python's `s.count(sep)`). */
  function Occurrences(s: Text, sep: Text): nat
    requires |sep| > 0
    decreases |s|
  {
    if |s| < |sep| then 0
    else if IsPrefix(sep, s) then 1 + Occurrences(s[|sep|..], sep)
    else Occurrences(s[1..], sep)
  }

  /** Python's `sep.join(parts)` for a non-empty list of parts. */
  function Join(parts: seq<Text>, sep: Text): Text
    requires |parts| >= 1
    decreases |parts|
  {
    if |parts| == 1 then parts[0] else parts[0] + sep + Join(parts[1..], sep)
  }

  /** Splitting yields one fragment more than there are separators. */
  lemma {:induction false} SplitCount(s: Text, sep: Text)
    requires |sep| > 0
    ensures |Split(s, sep)| == Occurrences(s, sep) + 1
    decreases |s|
  {
    if |s| < |sep| {
    } else if IsPrefix(sep, s) {
      SplitCount(s[|sep|..], sep);
    } else {
      SplitCount(s[1..], sep);
    }
  }

  lemma JoinCons(x: Text, rest: seq<Text>, sep: Text)
    requires |rest| >= 1
    ensures Join([x] + rest, sep) == x + sep + Join(rest, sep)
  {
  }

  lemma JoinPrepend(c: char, rest: seq<Text>, sep: Text)
    requires |rest| >= 1
    ensures Join([[c] + rest[0]] + rest[1..], sep) == [c] + Join(rest, sep)
  {
  }

  /** Rejoining the fragments with the separator gives the content back. */
  lemma {:induction false} SplitJoin(s: Text, sep: Text)
    requires |sep| > 0
    ensures Join(Split(s, sep), sep) == s
    decreases |s|
  {
    if |s| < |sep| {
    } else if IsPrefix(sep, s) {
      SplitJoin(s[|sep|..], sep);
      JoinCons([], Split(s[|sep|..], sep), sep);
      assert s == s[..|sep|] + s[|sep|..];
    } else {
      var rest := Split(s[1..], sep);
      SplitJoin(s[1..], sep);
      JoinPrepend(s[0], rest, sep);
      assert s == [s[0]] + s[1..];
    }
  }

  lemma {:induction false} ShortNotContains(t: Text, sub: Text)
    requires |t| < |sub|
    ensures !Contains(t, sub)
    decreases |t|
  {
    if |t| > 0 {
      ShortNotContains(t[1..], sub);
    }
  }

  /** The first fragment is a prefix of the content. */
  lemma FirstFragmentIsPrefix(s: Text, sep: Text)
    requires |sep| > 0
    ensures IsPrefix(Split(s, sep)[0], s)
  {
    var parts := Split(s, sep);
    SplitJoin(s, sep);
    if |parts| > 1 {
      assert s == parts[0] + (sep + Join(parts[1..], sep));
    }
  }

  /** No fragment holds the separator: every occurrence was a cut. */
  lemma {:induction false} FragmentsOmitSeparator(s: Text, sep: Text, i: nat)
    requires |sep| > 0
    requires i < |Split(s, sep)|
    ensures !Contains(Split(s, sep)[i], sep)
    decreases |s|
  {
    if |s| < |sep| {
      ShortNotContains(s, sep);
    } else if IsPrefix(sep, s) {
      if i == 0 {
        ShortNotContains([], sep);
      } else {
        FragmentsOmitSeparator(s[|sep|..], sep, i - 1);
      }
    } else {
      var rest := Split(s[1..], sep);
      if i == 0 {
        var f := [s[0]] + rest[0];
        FragmentsOmitSeparator(s[1..], sep, 0);
        FirstFragmentIsPrefix(s[1..], sep);
        assert f[1..] == rest[0];
      } else {
        FragmentsOmitSeparator(s[1..], sep, i);
      }
    }
  }

  /** Python's `sum(marker in f for f in fragments)`. */
  function CountContaining(fragments: seq<Text>, marker: Text): (k: nat)
    ensures k <= |fragments|
    decreases |fragments|
  {
    if fragments == [] then 0
    else (if Contains(fragments[0], marker) then 1 else 0)
         + CountContaining(fragments[1..], marker)
  }

  /** No fragment holds the marker exactly when the count is zero. */
  lemma {:induction false} CountNone(fragments: seq<Text>, marker: Text)
    ensures CountContaining(fragments, marker) == 0
        <==> forall i :: 0 <= i < |fragments| ==> !Contains(fragments[i], marker)
    decreases |fragments|
  {
    if fragments != [] {
      CountNone(fragments[1..], marker);
      var t := fragments[1..];
      assert forall i :: 1 <= i < |fragments| ==> fragments[i] == t[i - 1];
    }
  }

  /** Every fragment holds the marker exactly when the count is the whole deck. */
  lemma {:induction false} CountAll(fragments: seq<Text>, marker: Text)
    ensures CountContaining(fragments, marker) == |fragments|
        <==> forall i :: 0 <= i < |fragments| ==> Contains(fragments[i], marker)
    decreases |fragments|
  {
    if fragments != [] {
      CountAll(fragments[1..], marker);
      var t := fragments[1..];
      assert forall i :: 1 <= i < |fragments| ==> fragments[i] == t[i - 1];
    }
  }

  /** `(k / n) * 100` as an exact ratio; the source rounds it to two decimals. */
  function Percent(k: nat, n: nat): (p: real)
    requires k <= n && n > 0
    ensures 0.0 <= p <= 100.0
    ensures p * (n as real) == 100.0 * (k as real)
  {
    var ratio := (k as real) / (n as real);
    assert ratio <= 1.0 by {
      assert ratio * (n as real) == k as real;
    }
    ratio * 100.0
  }

  /** The percentage of the deck's slides whose fragment holds `marker`;
      the split never yields zero fragments, so the division is defined. */
  function ShareOfSlides(slides: seq<Text>, marker: Text): (p: real)
    requires |slides| >= 1
    ensures 0.0 <= p <= 100.0
    ensures p * (|slides| as real) == 100.0 * (CountContaining(slides, marker) as real)
  {
    Percent(CountContaining(slides, marker), |slides|)
  }

  datatype MetricValue =
    | SlideCount(slides: nat)
    | Percentage(percent: real)

  datatype MetricError =
    | FileNotFound
    | UnknownMetric(name: Text)

  /** `calculate_slide_metric(metric)`, with the HTML rendition given as
      whether it exists and what it holds. */
  function CalculateSlideMetric(htmlExists: bool, html: Text, metric: Text): (r: Result<MetricValue, MetricError>)
    ensures !htmlExists ==> r == Failure(FileNotFound)
    ensures htmlExists && metric != "total_slides" && metric != "code" && metric != "images"
            ==> r == Failure(UnknownMetric(metric))
    ensures htmlExists && metric == "total_slides"
            ==> r == Success(SlideCount(Occurrences(html, SlideTag) + 1))
    ensures htmlExists && metric == "code" ==> r == Success(Percentage(ShareOfSlides(Split(html, SlideTag), CodeMarker)))
    ensures htmlExists && metric == "images" ==> r == Success(Percentage(ShareOfSlides(Split(html, SlideTag), ImageMarker)))
  {
    if !htmlExists then Failure(FileNotFound)
    else
      var slides := Split(html, SlideTag);
      var totalSlides := |slides|;
      if metric == "total_slides" then
        SplitCount(html, SlideTag);
        Success(SlideCount(totalSlides))
      else if metric == "code" then
        Success(Percentage(ShareOfSlides(Split(html, SlideTag), CodeMarker)))
      else if metric == "images" then
        Success(Percentage(ShareOfSlides(Split(html, SlideTag), ImageMarker)))
      else
        Failure(UnknownMetric(metric))
  }

  /** The share is 0 % exactly when no slide holds the marker, and 100 %
      exactly when every slide does. */
  lemma ShareExtremes(slides: seq<Text>, marker: Text)
    requires |slides| >= 1
    ensures ShareOfSlides(slides, marker) == 0.0
            <==> forall i :: 0 <= i < |slides| ==> !Contains(slides[i], marker)
    ensures ShareOfSlides(slides, marker) == 100.0
            <==> forall i :: 0 <= i < |slides| ==> Contains(slides[i], marker)
  {
    CountAll(slides, marker);
    CountNone(slides, marker);
    var k := CountContaining(slides, marker) as real;
    var p := ShareOfSlides(slides, marker);
    var n := |slides| as real;
    assert p * n == 100.0 * k;
    if p == 100.0 {
      assert 100.0 * n == 100.0 * k;
    }
    if p == 0.0 {
      assert 0.0 == 100.0 * k;
    }
  }
}
