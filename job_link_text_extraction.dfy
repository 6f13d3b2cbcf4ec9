/**
 * The text extractor: fetches a page, collects the text of its paragraphs and
 * joins them with line breaks. The HTTP request and the HTML parser are
 * outside the model; what they produce is given as a `FetchOutcome`.
 */
module JobLinkTextExtraction {
  import opened Wrappers

  /** What fetching and parsing the page produced. */
  datatype FetchOutcome =
    | RequestFailure                 // the GET, or raise_for_status, raised a RequestException
    | OtherFailure(error: string)    // any other exception raised while fetching or parsing
    | Parsed(paragraphs: seq<string>)  // the text of every paragraph element, in document order

  /** What the extractor does: return a value, or let an exception escape. */
  datatype Extraction =
    | Returned(text: Option<string>)
    | Raised(error: string)

  /** `"\n".join(ps)`: the texts with one line break between consecutive ones. */
  function JoinLines(ps: seq<string>): string
    decreases |ps|
  {
    if |ps| == 0 then ""
    else if |ps| == 1 then ps[0]
    else ps[0] + "\n" + JoinLines(ps[1..])
  }

  /**
   * `extract_text_from_url`: a request failure is caught and gives `None`;
   * any other failure escapes; a parsed page gives its paragraphs joined.
   */
  function ExtractTextFromUrl(outcome: FetchOutcome): (r: Extraction)
    ensures r == Returned(None) <==> outcome == RequestFailure
    ensures r.Raised? <==> outcome.OtherFailure?
    ensures outcome.OtherFailure? ==> r.error == outcome.error
    ensures outcome.Parsed? ==> r == Returned(Some(JoinLines(outcome.paragraphs)))
    ensures outcome == Parsed([]) ==> r == Returned(Some(""))
    ensures forall p :: outcome == Parsed([p]) ==> r == Returned(Some(p))
  {
    match outcome
    case RequestFailure => Returned(None)
    case OtherFailure(e) => Raised(e)
    case Parsed(ps) => Returned(Some(JoinLines(ps)))
  }

  /** The total length of the texts. */
  function TotalLength(ps: seq<string>): nat
    decreases |ps|
  {
    if ps == [] then 0 else |ps[0]| + TotalLength(ps[1..])
  }

  /** One paragraph in front of at least one more: it, a line break, then the rest joined. */
  lemma JoinCons(p: string, ps: seq<string>)
    requires ps != []
    ensures JoinLines([p] + ps) == p + "\n" + JoinLines(ps)
  {
    assert ([p] + ps)[1..] == ps;
  }

  /** The joined text is as long as the paragraphs together, plus one per separator. */
  lemma {:induction false} JoinLength(ps: seq<string>)
    requires ps != []
    ensures |JoinLines(ps)| == TotalLength(ps) + |ps| - 1
    decreases |ps|
  {
    if |ps| > 1 {
      JoinLength(ps[1..]);
    }
  }

  /** The joined text is empty exactly when there is no paragraph or a single empty one. */
  lemma JoinEmptyIff(ps: seq<string>)
    ensures JoinLines(ps) == "" <==> |ps| == 0 || (|ps| == 1 && ps[0] == "")
  {
    if |ps| > 1 {
      JoinLength(ps);
      assert TotalLength(ps) >= 0;
    }
  }

  /**
   * Paragraph `i` appears unchanged after the paragraphs before it and one
   * separator each, and, unless it is the last, a line break follows it.
   */
  lemma {:induction false} ParagraphAt(ps: seq<string>, i: nat)
    requires i < |ps|
    ensures var o := TotalLength(ps[..i]) + i;
      && o + |ps[i]| <= |JoinLines(ps)|
      && JoinLines(ps)[o..o + |ps[i]|] == ps[i]
      && (i + 1 < |ps| ==> o + |ps[i]| < |JoinLines(ps)| && JoinLines(ps)[o + |ps[i]|] == '\n')
    decreases i
  {
    if |ps| == 1 {
      assert ps[..0] == [];
    } else if i == 0 {
      assert ps[..0] == [];
      assert JoinLines(ps) == ps[0] + "\n" + JoinLines(ps[1..]);
    } else {
      ParagraphAt(ps[1..], i - 1);
      assert ps[..i][1..] == ps[1..][..i - 1];
      assert ps[1..][i - 1] == ps[i];
      var rest := JoinLines(ps[1..]);
      var o' := TotalLength(ps[1..][..i - 1]) + (i - 1);
      assert TotalLength(ps[..i]) + i == |ps[0]| + 1 + o';
      assert JoinLines(ps) == ps[0] + "\n" + rest;
      assert JoinLines(ps)[|ps[0]| + 1 + o'..|ps[0]| + 1 + o' + |ps[i]|] == rest[o'..o' + |ps[i]|];
    }
  }

  /**
   * Python's `s.split("\n")`: the pieces of `s` between line breaks; there is
   * always at least one piece.
   */
  function SplitLines(s: string): (parts: seq<string>)
    ensures |parts| >= 1
    decreases |s|
  {
    if s == "" then [""]
    else
      var rest := SplitLines(s[1..]);
      if s[0] == '\n' then [""] + rest
      else [[s[0]] + rest[0]] + rest[1..]
  }

  /** Joining the pieces of a split gives back the text: no character is lost or added. */
  lemma {:induction false} JoinSplit(s: string)
    ensures JoinLines(SplitLines(s)) == s
    decreases |s|
  {
    if s != "" {
      var rest := SplitLines(s[1..]);
      JoinSplit(s[1..]);
      if s[0] == '\n' {
        JoinCons("", rest);
        assert s == "\n" + s[1..];
      } else if |rest| == 1 {
        assert SplitLines(s) == [[s[0]] + rest[0]];
        assert s == [s[0]] + s[1..];
      } else {
        assert SplitLines(s) == [[s[0]] + rest[0]] + rest[1..];
        JoinCons([s[0]] + rest[0], rest[1..]);
        JoinCons(rest[0], rest[1..]);
        assert rest == [rest[0]] + rest[1..];
        assert s == [s[0]] + s[1..];
      }
    }
  }

  /** Splitting text that starts with a piece `a` free of line breaks. */
  lemma {:induction false} SplitAfterPiece(a: string, t: string)
    requires '\n' !in a
    ensures SplitLines(a + t) == [a + SplitLines(t)[0]] + SplitLines(t)[1..]
    decreases |a|
  {
    if a == "" {
      assert a + t == t;
      assert a + SplitLines(t)[0] == SplitLines(t)[0];
      assert SplitLines(t) == [SplitLines(t)[0]] + SplitLines(t)[1..];
    } else {
      assert (a + t)[1..] == a[1..] + t;
      assert (a + t)[0] == a[0];
      SplitAfterPiece(a[1..], t);
      assert [a[0]] + (a[1..] + SplitLines(t)[0]) == a + SplitLines(t)[0];
    }
  }

  /**
   * When no paragraph contains a line break, splitting the joined text gives
   * the paragraphs back, in order: the join loses nothing.
   */
  lemma {:induction false} SplitJoin(ps: seq<string>)
    requires ps != []
    requires forall i :: 0 <= i < |ps| ==> '\n' !in ps[i]
    ensures SplitLines(JoinLines(ps)) == ps
    decreases |ps|
  {
    if |ps| == 1 {
      SplitAfterPiece(ps[0], "");
      assert ps[0] + "" == ps[0];
    } else {
      SplitJoin(ps[1..]);
      var rest := JoinLines(ps[1..]);
      assert JoinLines(ps) == ps[0] + ("\n" + rest);
      SplitAfterPiece(ps[0], "\n" + rest);
      assert ("\n" + rest)[1..] == rest;
      assert SplitLines("\n" + rest) == [""] + ps[1..];
      assert ([""] + ps[1..])[0] == "" && ([""] + ps[1..])[1..] == ps[1..];
      assert ps[0] + "" == ps[0];
      assert ps == [ps[0]] + ps[1..];
    }
  }
}
