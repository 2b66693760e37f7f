/** The iCalendar feed: TEXT escaping, line folding, and the document built from them, against the reader
    that RFC 5545 describes (sections 3.1 and 3.3.11).  A character is a Unicode scalar value. */
module Calendar {
  import opened Options

  const CRLF := "\r\n"
  const LINE_OCTETS := 75
  const CUT := 74

  /*************** escaping ***************/

  // str.replace with a one-character pattern.
  function Replace(text: string, c: char, by_: string): string {
    if text == "" then ""
    else (if text[0] == c then by_ else [text[0]]) + Replace(text[1..], c, by_)
  }

  function Escape(text: string): string {
    Replace(Replace(Replace(Replace(text, '\\', "\\\\"), ';', "\\;"), ',', "\\,"), '\n', "\\n")
  }

  function EscapeChar(c: char): string {
    match c
    case '\\' => "\\\\"
    case ';' => "\\;"
    case ',' => "\\,"
    case '\n' => "\\n"
    case _ => [c]
  }

  function EscapeAll(text: string): string {
    if text == "" then "" else EscapeChar(text[0]) + EscapeAll(text[1..])
  }

  // Reads one TEXT value; a bare delimiter, a newline, or a backslash before anything else is malformed.
  function ReadText(s: string): Option<string> {
    if s == "" then Some("")
    else if s[0] == '\\' then
      if |s| == 1 then None
      else if s[1] in "\\;," then Prepend(s[1], ReadText(s[2..]))
      else if s[1] == 'n' || s[1] == 'N' then Prepend('\n', ReadText(s[2..]))
      else None
    else if s[0] in ";,\n" then None
    else Prepend(s[0], ReadText(s[1..]))
  }

  function Prepend(c: char, rest: Option<string>): Option<string> {
    if rest.None? then None else Some([c] + rest.value)
  }

  lemma {:induction false} ReplaceAppend(a: string, b: string, c: char, with: string)
    ensures Replace(a + b, c, with) == Replace(a, c, with) + Replace(b, c, with)
  {
    if a == "" {
      assert a + b == b;
    } else {
      assert (a + b)[1..] == a[1..] + b;
      ReplaceAppend(a[1..], b, c, with);
    }
  }

  lemma EscapeAppend(a: string, b: string)
    ensures Escape(a + b) == Escape(a) + Escape(b)
  {
    var (a1, b1) := (Replace(a, '\\', "\\\\"), Replace(b, '\\', "\\\\"));
    var (a2, b2) := (Replace(a1, ';', "\\;"), Replace(b1, ';', "\\;"));
    var (a3, b3) := (Replace(a2, ',', "\\,"), Replace(b2, ',', "\\,"));
    hide Replace;
    ReplaceAppend(a, b, '\\', "\\\\");
    ReplaceAppend(a1, b1, ';', "\\;");
    ReplaceAppend(a2, b2, ',', "\\,");
    ReplaceAppend(a3, b3, '\n', "\\n");
  }

  lemma ReplaceOne(c: char, d: char, with: string)
    ensures Replace([c], d, with) == if c == d then with else [c]
  {
  }

  lemma ReplaceTwo(s: string, d: char, with: string)
    requires |s| == 2 && d !in s
    ensures Replace(s, d, with) == s
  {
    assert s[1..] == [s[1]];
    ReplaceOne(s[1], d, with);
  }

  lemma EscapeOne(c: char)
    ensures Escape([c]) == EscapeChar(c)
  {
    hide Replace;
    ReplaceOne(c, '\\', "\\\\");
    ReplaceOne(c, ';', "\\;");
    ReplaceOne(c, ',', "\\,");
    ReplaceOne(c, '\n', "\\n");
    ReplaceTwo("\\\\", ';', "\\;");
    ReplaceTwo("\\\\", ',', "\\,");
    ReplaceTwo("\\\\", '\n', "\\n");
    ReplaceTwo("\\;", ',', "\\,");
    ReplaceTwo("\\;", '\n', "\\n");
    ReplaceTwo("\\,", '\n', "\\n");
  }

  /** The four replaces in a row amount to one map over the characters: doing the backslash first keeps the
      later ones from touching what the earlier ones wrote. */
  lemma {:induction false} EscapeIsPerCharacter(text: string)
    ensures Escape(text) == EscapeAll(text)
  {
    if text != "" {
      assert text == [text[0]] + text[1..];
      hide Escape;
      EscapeAppend([text[0]], text[1..]);
      EscapeOne(text[0]);
      EscapeIsPerCharacter(text[1..]);
    } else {
      assert Escape("") == "";
    }
  }

  /** Reading an escaped text gives the text back; in particular no bare `;`, `,` or newline is left in it. */
  lemma EscapeReadsBack(text: string)
    ensures ReadText(Escape(text)) == Some(text)
  {
    EscapeIsPerCharacter(text);
    ReadEscaped(text);
  }

  lemma {:induction false} ReadEscaped(text: string)
    ensures ReadText(EscapeAll(text)) == Some(text)
  {
    if text != "" {
      ReadEscaped(text[1..]);
      var e, rest := EscapeChar(text[0]), EscapeAll(text[1..]);
      assert text == [text[0]] + text[1..];
      if |e| == 1 {
        assert (e + rest)[1..] == rest;
      } else {
        assert (e + rest)[2..] == rest;
      }
    }
  }

  /** Escaping removes every line feed and no other control character: a carriage return in a name stays
      in the content line, where section 3.1 allows none. */
  lemma {:induction false} EscapeKeepsReturns(text: string)
    ensures '\n' !in Escape(text)
    ensures '\r' in Escape(text) <==> '\r' in text
  {
    EscapeIsPerCharacter(text);
    if text != "" {
      EscapeIsPerCharacter(text[1..]);
      EscapeKeepsReturns(text[1..]);
      assert text == [text[0]] + text[1..];
      assert '\n' !in EscapeChar(text[0]);
    }
  }

  /*************** folding ***************/

  function OctetsOf(c: char): nat {
    var n := c as int;
    if n < 0x80 then 1 else if n < 0x800 then 2 else if n < 0x10000 then 3 else 4
  }

  // Length in UTF-8.
  function Octets(line: string): (n: nat)
    ensures |line| <= n <= 4 * |line|
  {
    if line == "" then 0 else OctetsOf(line[0]) + Octets(line[1..])
  }

  function Rest(line: string): string { " " + if |line| <= CUT then "" else line[CUT..] }
  function Head(line: string): string { if |line| <= CUT then line else line[..CUT] }

  function Pieces(line: string): (pieces: seq<string>)
    ensures pieces != []
    decreases |line|
  {
    if Octets(line) <= LINE_OCTETS then [line] else [Head(line)] + Pieces(Rest(line))
  }

  function Join(lines: seq<string>): string {
    if lines == [] then "" else if |lines| == 1 then lines[0] else lines[0] + CRLF + Join(lines[1..])
  }

  /** The folding loop: it ends for every input, since a line over 75 octets has at least 19 characters and
      each round leaves fewer. */
  method Fold(text: string) returns (folded: string)
    ensures folded == Join(Pieces(text))
  {
    var out, line := [], text;
    while Octets(line) > LINE_OCTETS
      invariant out + Pieces(line) == Pieces(text)
      decreases |line|
    {
      ghost var was := out;
      out := out + [Head(line)];
      line := Rest(line);
      assert out + Pieces(line) == was + ([out[|out| - 1]] + Pieces(line));
    }
    out := out + [line];
    folded := Join(out);
  }

  // Unfolding: a line break followed by one space or tab disappears.
  function Unfold(s: string): string {
    if s == "" then ""
    else if |s| >= 3 && s[0] == '\r' && s[1] == '\n' && s[2] in " \t" then Unfold(s[3..])
    else [s[0]] + Unfold(s[1..])
  }

  predicate OneLine(line: string) { '\n' !in line }

  lemma {:induction false} UnfoldPlain(p: string, t: string)
    requires OneLine(p) && (t == "" || t[0] != '\n')
    ensures Unfold(p + t) == p + Unfold(t)
  {
    var s := p + t;
    if p == "" {
      assert s == t;
    } else {
      var q := p[1..];
      assert s[1..] == q + t;
      assert |s| >= 2 ==> s[1] == (if q == "" then t[0] else q[0]);
      assert q != "" ==> q[0] == p[1];
      UnfoldPlain(q, t);
      assert Unfold(s) == [p[0]] + Unfold(q + t);
      assert [p[0]] + (q + Unfold(t)) == p + Unfold(t);
    }
  }

  lemma {:induction false} PiecesStart(line: string)
    requires line != ""
    ensures Join(Pieces(line)) != "" && Join(Pieces(line))[0] == line[0]
  {
    if Octets(line) > LINE_OCTETS {
      assert Pieces(line)[1..] == Pieces(Rest(line));
    }
  }

  lemma FoldStep(line: string)
    requires Octets(line) > LINE_OCTETS
    ensures Join(Pieces(line)) == Head(line) + CRLF + Join(Pieces(Rest(line)))
    ensures Head(line) + Rest(line)[1..] == line
  {
    assert Pieces(line) == [Head(line)] + Pieces(Rest(line));
    assert Pieces(line)[1..] == Pieces(Rest(line));
    var tail := if |line| <= CUT then "" else line[CUT..];
    assert Rest(line)[1..] == tail && Head(line) + tail == line;
  }

  /** Unfolding gives back any line without a newline, whatever its characters. */
  lemma {:induction false} UnfoldFold(line: string, t: string)
    requires OneLine(line) && (t == "" || t[0] == '\r')
    ensures Unfold(Join(Pieces(line)) + t) == line + Unfold(t)
    decreases |line|
  {
    if Octets(line) <= LINE_OCTETS {
      UnfoldPlain(line, t);
    } else {
      var head, rest := Head(line), Rest(line);
      FoldStep(line);
      Shorter(line);
      OneLineParts(line);
      PiecesStart(rest);
      hide *;
      UnfoldFold(rest, t);
      UnfoldParts(head, rest, Join(Pieces(rest)), t);
    }
  }

  lemma UnfoldParts(head: string, rest: string, folded: string, t: string)
    requires OneLine(head) && rest != "" && folded != "" && folded[0] == ' '
    requires Unfold(folded + t) == rest + Unfold(t)
    ensures Unfold(head + CRLF + folded + t) == head + rest[1..] + Unfold(t)
  {
    hide *;
    var x := folded[1..] + t;
    assert folded + t == " " + x;
    UnfoldSpace(x);
    SameTail(Unfold(x), rest, Unfold(t));
    UnfoldCut(head, x);
    assert head + CRLF + folded + t == head + (CRLF + " " + x);
    assert head + (rest[1..] + Unfold(t)) == head + rest[1..] + Unfold(t);
  }

  lemma OneLineParts(line: string)
    requires OneLine(line)
    ensures OneLine(Head(line)) && OneLine(Rest(line)) && Rest(line)[0] == ' '
  {
    var tail := if |line| <= CUT then "" else line[CUT..];
    forall c | c in tail ensures c in line {
    }
    assert Rest(line) == " " + tail;
  }

  lemma SameTail(x: string, rest: string, y: string)
    requires rest != "" && " " + x == rest + y
    ensures x == rest[1..] + y
  {
    assert x == (" " + x)[1..] == (rest + y)[1..] == rest[1..] + y;
  }

  lemma UnfoldSpace(x: string)
    ensures Unfold(" " + x) == " " + Unfold(x)
  {
    assert (" " + x)[1..] == x;
  }

  lemma UnfoldCut(head: string, x: string)
    requires OneLine(head)
    ensures Unfold(head + (CRLF + " " + x)) == head + Unfold(x)
  {
    var s := CRLF + " " + x;
    assert s[0] == '\r' && s[1] == '\n' && s[2] == ' ' && s[3..] == x;
    assert Unfold(s) == Unfold(x);
    UnfoldPlain(head, s);
  }

  /*************** how long the physical lines are ***************/

  lemma {:induction false} AsciiOctets(line: string)
    requires forall c | c in line :: c as int < 0x80
    ensures Octets(line) == |line|
  {
    if line != "" {
      assert forall c | c in line[1..] :: c in line;
      assert line[0] in line;
      AsciiOctets(line[1..]);
    }
  }

  // What is left to fold after `k` cuts.
  function Left(line: string, k: nat): string
    decreases k
  {
    if k == 0 then line else Rest(Left(line, k - 1))
  }

  ghost predicate CutsFit(line: string) {
    forall k: nat | Octets(Left(line, k)) > LINE_OCTETS :: Octets(Head(Left(line, k))) <= LINE_OCTETS
  }

  predicate AllFit(pieces: seq<string>) { forall p | p in pieces :: Octets(p) <= LINE_OCTETS }

  // Where the k-th window of the input line begins and ends: 74 characters, then 73 after each space.
  function From(line: string, k: nat): nat { if k == 0 then 0 else if 73 * k + 1 <= |line| then 73 * k + 1 else |line| }
  function To(line: string, k: nat): nat { if 73 * k + 74 <= |line| then 73 * k + 74 else |line| }
  function Lead(k: nat): nat { if k == 0 then 0 else 1 }

  // Each window with more than 75 octets from its start on has at most 75 itself.
  ghost predicate WindowsFit(line: string) {
    forall k: nat | Lead(k) + Octets(line[From(line, k)..]) > LINE_OCTETS ::
      Lead(k) + Octets(line[From(line, k)..To(line, k)]) <= LINE_OCTETS
  }

  /** Section 3.1 asks for at most 75 octets a line.  The loop cuts at 74 characters, so it delivers that
      exactly when every stretch of the line that is cut off, by its place in the line, has at most 75. */
  lemma LinesFitIff(line: string)
    ensures AllFit(Pieces(line)) <==> WindowsFit(line)
  {
    FitIffCutsFit(line);
    hide Octets, Pieces, Left, Head;
    forall k: nat
      ensures Octets(Left(line, k)) == Lead(k) + Octets(line[From(line, k)..])
      ensures Octets(Head(Left(line, k))) == Lead(k) + Octets(line[From(line, k)..To(line, k)])
    {
      LeftOctets(line, k);
    }
  }

  lemma {:induction false} LeftIs(line: string, k: nat)
    ensures Left(line, k) == if k == 0 then line else " " + line[From(line, k)..]
  {
    if k > 0 {
      LeftIs(line, k - 1);
      var was := Left(line, k - 1);
      if k == 1 {
        assert Rest(line) == " " + line[From(line, 1)..];
      } else {
        var f := From(line, k - 1);
        assert was == " " + line[f..];
        if |was| <= CUT {
          assert line[From(line, k)..] == "";
        } else {
          assert was[CUT..] == line[f..][CUT - 1..] == line[From(line, k)..];
        }
      }
    }
  }

  lemma LeftOctets(line: string, k: nat)
    ensures Octets(Left(line, k)) == Lead(k) + Octets(line[From(line, k)..])
    ensures Octets(Head(Left(line, k))) == Lead(k) + Octets(line[From(line, k)..To(line, k)])
  {
    LeftIs(line, k);
    hide Left;
    var tail, window := line[From(line, k)..], line[From(line, k)..To(line, k)];
    if k == 0 {
      assert tail == line && Head(line) == window;
    } else {
      assert Head(" " + tail) == " " + window;
      SpaceOctets(tail);
      SpaceOctets(window);
    }
  }

  lemma SpaceOctets(s: string)
    ensures Octets(" " + s) == 1 + Octets(s)
  {
    assert (" " + s)[1..] == s;
  }

  lemma {:induction false} OctetsAppend(a: string, b: string)
    ensures Octets(a + b) == Octets(a) + Octets(b)
  {
    if a == "" {
      assert a + b == b;
    } else {
      assert (a + b)[1..] == a[1..] + b;
      OctetsAppend(a[1..], b);
    }
  }

  lemma {:induction false} FitIffCutsFit(line: string)
    ensures AllFit(Pieces(line)) <==> CutsFit(line)
    decreases |line|
  {
    if Octets(line) <= LINE_OCTETS {
      forall k: nat ensures Octets(Left(line, k)) <= LINE_OCTETS { StaysShort(line, k); }
    } else {
      Shorter(line);
      FitIffCutsFit(Rest(line));
      CutsFitNext(line);
      assert Pieces(line) == [Head(line)] + Pieces(Rest(line));
      hide Octets, Pieces, CutsFit;
      AllFitNext(Head(line), Pieces(Rest(line)));
    }
  }

  lemma AllFitNext(head: string, rest: seq<string>)
    ensures AllFit([head] + rest) <==> Octets(head) <= LINE_OCTETS && AllFit(rest)
  {
    hide Octets;
    var all := [head] + rest;
    assert head in all;
    assert forall p | p in rest :: p in all;
  }

  lemma CutsFitNext(line: string)
    requires Octets(line) > LINE_OCTETS
    ensures CutsFit(line) <==> Octets(Head(line)) <= LINE_OCTETS && CutsFit(Rest(line))
  {
    hide Octets, Head, Rest;
    assert Left(line, 0) == line;
    forall k: nat ensures Left(Rest(line), k) == Left(line, k + 1) { LeftShift(line, k); }
    hide Left;
    if Octets(Head(line)) <= LINE_OCTETS && CutsFit(Rest(line)) {
      forall k: nat | Octets(Left(line, k)) > LINE_OCTETS ensures Octets(Head(Left(line, k))) <= LINE_OCTETS {
        if k > 0 { assert Left(line, k) == Left(Rest(line), k - 1); }
      }
    }
  }

  lemma Shorter(line: string)
    requires Octets(line) > LINE_OCTETS
    ensures |Rest(line)| < |line|
  {
  }

  lemma {:induction false} LeftShift(line: string, k: nat)
    ensures Left(Rest(line), k) == Left(line, k + 1)
  {
    if k > 0 { LeftShift(line, k - 1); }
  }

  lemma {:induction false} StaysShort(line: string, k: nat)
    requires Octets(line) <= LINE_OCTETS
    ensures Octets(Left(line, k)) <= LINE_OCTETS
  {
    if k > 0 {
      StaysShort(line, k - 1);
      RestFits(Left(line, k - 1));
    }
  }

  lemma RestFits(line: string)
    requires Octets(line) <= LINE_OCTETS
    ensures Octets(Rest(line)) <= LINE_OCTETS
  {
    var tail := if |line| <= CUT then "" else line[CUT..];
    assert Octets(tail) <= 4;
    assert (" " + tail)[1..] == tail;
  }

  lemma {:induction false} AsciiLinesFit(line: string)
    requires forall c | c in line :: c as int < 0x80
    ensures forall p | p in Pieces(line) :: Octets(p) <= LINE_OCTETS
    decreases |line|
  {
    if Octets(line) > LINE_OCTETS {
      assert forall c | c in Head(line) :: c in line;
      assert forall c | c in Rest(line) :: c == ' ' || c in line;
      AsciiOctets(Head(line));
      AsciiLinesFit(Rest(line));
    }
  }

  function Repeat(c: char, n: nat): string { seq(n, _ => c) }

  lemma {:induction false} RepeatOctets(c: char, n: nat)
    ensures Octets(Repeat(c, n)) == n * OctetsOf(c)
  {
    if n > 0 {
      assert Repeat(c, n)[1..] == Repeat(c, n - 1);
      RepeatOctets(c, n - 1);
    }
  }

  /** The comment on the cut says it is always under the ceiling.  A line of at most 74 characters is never
      cut: over 75 octets it goes out whole, followed by an empty continuation. */
  lemma ShortWideLineOverflows(line: string)
    requires |line| <= CUT && Octets(line) > LINE_OCTETS
    ensures Pieces(line) == [line, " "] && !AllFit(Pieces(line))
  {
    OneSpace();
    assert Rest(line) == " ";
    hide Octets;
    assert Pieces(line) == [line] + Pieces(" ");
    assert Pieces(line)[0] == line;
  }

  lemma OneSpace()
    ensures Octets(" ") == 1 && Pieces(" ") == [" "]
  {
    assert " "[1..] == "";
  }
}
