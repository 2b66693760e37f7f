/** The calendar document: one VEVENT per review, folded and joined, read back line by line. */
module CalendarFeed {
  import opened Options
  import opened Calendar

  /* Dates, the time stamp and the label of an asset type arrive as text; `alarmDays` is the number of days
     as text, or None when the feed carries no alarms. */
  datatype Review = Review(id: string, heading: string, name: string, status: string, owner: Option<string>,
                           dueField: string, due: string)
  datatype Feed = Feed(stamp: string, baseUrl: string, calendarName: string, alarmDays: Option<string>)

  function Summary(r: Review): string { r.heading + ": " + r.name }

  function Description(r: Review): string {
    "Status: " + r.status + (if r.owner.Some? && r.owner.value != "" then "; Owner: " + r.owner.value else "")
      + "; Due field: " + r.dueField
  }

  function Alarm(f: Feed, r: Review): seq<string> {
    if f.alarmDays.None? then []
    else ["BEGIN:VALARM", "ACTION:DISPLAY", "TRIGGER:-P" + (f.alarmDays.value + "D"),
          "DESCRIPTION:" + Escape(Summary(r)), "END:VALARM"]
  }

  function Details(f: Feed, r: Review): seq<string> {
    ["BEGIN:VEVENT", "UID:" + (r.id + "-" + r.dueField + "@grcen"), "DTSTAMP:" + f.stamp,
     "DTSTART;VALUE=DATE:" + r.due, "SUMMARY:" + Escape(Summary(r)), "DESCRIPTION:" + Escape(Description(r)),
     "URL:" + (f.baseUrl + "/assets/" + r.id), "TRANSP:TRANSPARENT"]
  }

  function Event(f: Feed, r: Review): seq<string> { Details(f, r) + Alarm(f, r) + ["END:VEVENT"] }

  function Events(f: Feed, reviews: seq<Review>): seq<string> {
    if reviews == [] then [] else Events(f, reviews[..|reviews| - 1]) + Event(f, reviews[|reviews| - 1])
  }

  function Opening(f: Feed): seq<string> {
    ["BEGIN:VCALENDAR", "VERSION:2.0", "PRODID:-//GRCen//Review Calendar//EN", "CALSCALE:GREGORIAN",
     "X-WR-CALNAME:" + Escape(f.calendarName)]
  }

  function ContentLines(f: Feed, reviews: seq<Review>): seq<string> {
    Opening(f) + Events(f, reviews) + ["END:VCALENDAR"]
  }

  function Folded(lines: seq<string>): seq<string> { seq(|lines|, i requires 0 <= i < |lines| => Join(Pieces(lines[i]))) }

  function Render(lines: seq<string>): string { Join(Folded(lines)) + CRLF }

  method BuildIcs(f: Feed, reviews: seq<Review>) returns (doc: string)
    ensures doc == Render(ContentLines(f, reviews))
    ensures (forall i | 0 <= i < |reviews| :: PlainFields(f, reviews[i])) ==> ShowsReviews(doc, f, reviews)
  {
    if forall i | 0 <= i < |reviews| :: PlainFields(f, reviews[i]) { FeedShowsReviews(f, reviews); }
    hide ContentLines, ShowsReviews, PlainFields, Events, Render, Folded;
    doc := Rendered(f, reviews);
  }

  // One event per review in the document, in order, each the event of its own review.
  ghost predicate ShowsReviews(doc: string, f: Feed, reviews: seq<Review>) {
    var events := ReadEvents(ParseDocument(doc));
    |events| == |reviews| && forall k | 0 <= k < |reviews| :: EventOf(events[k], f, reviews[k])
  }

  method Rendered(f: Feed, reviews: seq<Review>) returns (doc: string)
    ensures doc == Render(ContentLines(f, reviews))
  {
    hide Event, Pieces, Join, Opening;
    var lines := Opening(f);
    for i := 0 to |reviews|
      invariant lines == Opening(f) + Events(f, reviews[..i])
    {
      assert reviews[..i + 1][..i] == reviews[..i];
      lines := lines + Event(f, reviews[i]);
    }
    assert reviews[..|reviews|] == reviews;
    lines := lines + ["END:VCALENDAR"];
    var folded: seq<string> := [];
    for i := 0 to |lines|
      invariant folded == Folded(lines[..i])
    {
      var one := Fold(lines[i]);
      assert Folded(lines[..i + 1]) == Folded(lines[..i]) + [one];
      folded := folded + [one];
    }
    assert lines[..|lines|] == lines;
    doc := Join(folded) + CRLF;
  }

  /*************** reading ***************/

  // Lines end in CRLF; `line` is the part of the current one already read.
  function SplitLines(line: string, s: string): seq<string>
    decreases |s|
  {
    if s == "" then (if line == "" then [] else [line])
    else if |s| >= 2 && s[0] == '\r' && s[1] == '\n' then [line] + SplitLines("", s[2..])
    else SplitLines(line + [s[0]], s[1..])
  }

  function ParseDocument(doc: string): seq<string> { SplitLines("", Unfold(doc)) }

  // No line feed, and nothing that would make it a continuation of the line before.
  predicate Starts(line: string) { OneLine(line) && (line == "" || line[0] !in " \t") }

  function Plain(lines: seq<string>): string {
    if lines == [] then "" else lines[0] + (CRLF + Plain(lines[1..]))
  }

  function Wrapped(lines: seq<string>): string {
    if lines == [] then "" else Join(Pieces(lines[0])) + (CRLF + Wrapped(lines[1..]))
  }

  lemma {:induction false} RenderIsWrapped(lines: seq<string>)
    requires lines != []
    ensures Render(lines) == Wrapped(lines)
  {
    hide Pieces;
    if |lines| == 1 {
      assert Wrapped(lines[1..]) == "";
      assert Render(lines) == Join(Pieces(lines[0])) + CRLF;
    } else {
      RenderIsWrapped(lines[1..]);
      assert Folded(lines)[1..] == Folded(lines[1..]);
      assert Render(lines) == Join(Pieces(lines[0])) + (CRLF + (Join(Folded(lines[1..])) + CRLF));
    }
  }

  lemma UnfoldBreak(rest: string)
    requires rest == "" || rest[0] !in " \t"
    ensures Unfold(CRLF + rest) == CRLF + Unfold(rest)
  {
    var s := CRLF + rest;
    var t := "\n" + rest;
    assert s == "\r" + t && t[1..] == rest;
    assert s[1..] == t;
    assert |s| >= 3 ==> s[2] == rest[0];
    Kept(s);
    Kept(t);
    hide Unfold;
    assert "\r" + ("\n" + Unfold(rest)) == CRLF + Unfold(rest);
  }

  lemma Kept(s: string)
    requires s != "" && !(|s| >= 3 && s[0] == '\r' && s[1] == '\n' && s[2] in " \t")
    ensures Unfold(s) == [s[0]] + Unfold(s[1..])
  {
  }

  lemma WrappedStart(lines: seq<string>)
    requires forall i | 0 <= i < |lines| :: Starts(lines[i])
    ensures Wrapped(lines) == "" || Wrapped(lines)[0] !in " \t"
  {
    if lines != [] {
      if lines[0] == "" {
        assert Pieces("") == [""];
        assert Wrapped(lines)[0] == '\r';
      } else {
        PiecesStart(lines[0]);
      }
    }
  }

  lemma {:induction false} UnfoldWrapped(lines: seq<string>)
    requires forall i | 0 <= i < |lines| :: Starts(lines[i])
    ensures Unfold(Wrapped(lines)) == Plain(lines)
  {
    if lines != [] {
      var rest := Wrapped(lines[1..]);
      UnfoldWrapped(lines[1..]);
      WrappedStart(lines[1..]);
      UnfoldBreak(rest);
      UnfoldFold(lines[0], CRLF + rest);
    }
  }

  lemma {:induction false} SplitOne(line: string, l: string, rest: string)
    requires OneLine(l)
    ensures SplitLines(line, l + (CRLF + rest)) == [line + l] + SplitLines("", rest)
    decreases |l|
  {
    var s := l + (CRLF + rest);
    if l == "" {
      assert s == CRLF + rest && s[2..] == rest && line + l == line;
    } else {
      assert s[1..] == l[1..] + (CRLF + rest);
      assert s[1] == if |l| == 1 then '\r' else l[1];
      SplitOne(line + [l[0]], l[1..], rest);
      assert line + [l[0]] + l[1..] == line + l;
    }
  }

  lemma {:induction false} SplitPlain(lines: seq<string>)
    requires forall i | 0 <= i < |lines| :: OneLine(lines[i])
    ensures SplitLines("", Plain(lines)) == lines
  {
    if lines != [] {
      SplitPlain(lines[1..]);
      SplitOne("", lines[0], Plain(lines[1..]));
      assert "" + lines[0] == lines[0];
    }
  }

  /** Unfolding and splitting a rendered document gives back its content lines. */
  lemma RenderReadsBack(lines: seq<string>)
    requires lines != [] && forall i | 0 <= i < |lines| :: Starts(lines[i])
    ensures ParseDocument(Render(lines)) == lines
  {
    RenderIsWrapped(lines);
    UnfoldWrapped(lines);
    SplitPlain(lines);
  }

  // The fields that go into a line unescaped.
  predicate PlainFields(f: Feed, r: Review) {
    OneLine(r.id) && OneLine(r.dueField) && OneLine(r.due) && OneLine(f.stamp) && OneLine(f.baseUrl)
      && (f.alarmDays.Some? ==> OneLine(f.alarmDays.value))
  }

  predicate AllStart(lines: seq<string>) { forall i | 0 <= i < |lines| :: Starts(lines[i]) }

  lemma Prefixed(name: string, text: string)
    requires name != "" && name[0] !in " \t" && OneLine(name) && OneLine(text)
    ensures Starts(name + text)
  {
  }

  lemma EventStarts(f: Feed, r: Review)
    requires PlainFields(f, r)
    ensures AllStart(Event(f, r))
  {
    DetailsStart(f, r);
    AlarmStarts(f, r);
    assert Starts("END:VEVENT");
    hide Starts, Details, Alarm;
  }

  lemma DetailsStart(f: Feed, r: Review)
    requires PlainFields(f, r)
    ensures AllStart(Details(f, r))
  {
    EscapeKeepsReturns(Summary(r));
    EscapeKeepsReturns(Description(r));
    hide Escape, Summary, Description;
    assert Starts("BEGIN:VEVENT") && Starts("TRANSP:TRANSPARENT");
    Prefixed("UID:", r.id + "-" + r.dueField + "@grcen");
    Prefixed("DTSTAMP:", f.stamp);
    Prefixed("DTSTART;VALUE=DATE:", r.due);
    Prefixed("SUMMARY:", Escape(Summary(r)));
    Prefixed("DESCRIPTION:", Escape(Description(r)));
    Prefixed("URL:", f.baseUrl + "/assets/" + r.id);
    hide Starts, PlainFields;
  }

  lemma AlarmStarts(f: Feed, r: Review)
    requires PlainFields(f, r)
    ensures AllStart(Alarm(f, r))
  {
    EscapeKeepsReturns(Summary(r));
    hide Escape, Summary;
    if f.alarmDays.Some? {
      Prefixed("TRIGGER:-P", f.alarmDays.value + "D");
      Prefixed("DESCRIPTION:", Escape(Summary(r)));
    }
  }

  lemma {:induction false} EventsStart(f: Feed, reviews: seq<Review>)
    requires forall i | 0 <= i < |reviews| :: PlainFields(f, reviews[i])
    ensures AllStart(Events(f, reviews))
  {
    hide PlainFields, Event, Starts;
    if reviews != [] {
      EventsStart(f, reviews[..|reviews| - 1]);
      EventStarts(f, reviews[|reviews| - 1]);
    }
  }

  lemma {:induction false} SummaryAmong(f: Feed, reviews: seq<Review>, k: nat)
    requires k < |reviews|
    ensures "SUMMARY:" + Escape(Summary(reviews[k])) in Events(f, reviews)
    ensures "DESCRIPTION:" + Escape(Description(reviews[k])) in Events(f, reviews)
  {
    hide Escape;
    var last := |reviews| - 1;
    if k == last {
      var e := Event(f, reviews[k]);
      assert e[4] == "SUMMARY:" + Escape(Summary(reviews[k])) && e[5] == "DESCRIPTION:" + Escape(Description(reviews[k]));
      assert e[4] in e && e[5] in e;
    } else {
      SummaryAmong(f, reviews[..last], k);
      assert reviews[..last][k] == reviews[k];
    }
  }

  lemma OpeningStarts(f: Feed)
    ensures AllStart(Opening(f))
  {
    EscapeKeepsReturns(f.calendarName);
    hide Escape;
    Prefixed("X-WR-CALNAME:", Escape(f.calendarName));
  }

  lemma LinesStart(f: Feed, reviews: seq<Review>)
    requires AllStart(Opening(f)) && AllStart(Events(f, reviews))
    ensures ContentLines(f, reviews) != []
    ensures forall i | 0 <= i < |ContentLines(f, reviews)| :: Starts(ContentLines(f, reviews)[i])
  {
    hide Opening, Events;
    assert Starts("END:VCALENDAR");
    hide Starts;
  }

  lemma SummaryInside(f: Feed, reviews: seq<Review>, k: nat)
    requires k < |reviews|
    ensures "SUMMARY:" + Escape(Summary(reviews[k])) in ContentLines(f, reviews)
    ensures "DESCRIPTION:" + Escape(Description(reviews[k])) in ContentLines(f, reviews)
  {
    hide Opening, Events, Escape, Summary, Description;
    SummaryAmong(f, reviews, k);
  }

  // One of the lines is `name` followed by a TEXT value that reads back as `text`.
  ghost predicate Carries(lines: seq<string>, name: string, text: string) {
    exists s :: name + s in lines && ReadText(s) == Some(text)
  }

  lemma CarriesBoth(f: Feed, reviews: seq<Review>, k: nat)
    requires k < |reviews|
    ensures Carries(ContentLines(f, reviews), "SUMMARY:", Summary(reviews[k]))
    ensures Carries(ContentLines(f, reviews), "DESCRIPTION:", Description(reviews[k]))
  {
    SummaryInside(f, reviews, k);
    EscapeReadsBack(Summary(reviews[k]));
    EscapeReadsBack(Description(reviews[k]));
    hide ContentLines, Escape, ReadText, Summary, Description;
  }

  /** What the feed promises its reader: the document parses to exactly the content lines that were built,
      and among them, for every review, are a SUMMARY and a DESCRIPTION whose texts read back as the
      originals, whatever characters name, status and owner hold. */
  lemma FeedReadsBack(f: Feed, reviews: seq<Review>)
    requires forall i | 0 <= i < |reviews| :: PlainFields(f, reviews[i])
    ensures ParseDocument(Render(ContentLines(f, reviews))) == ContentLines(f, reviews)
    ensures forall k | 0 <= k < |reviews| ::
      && Carries(ParseDocument(Render(ContentLines(f, reviews))), "SUMMARY:", Summary(reviews[k]))
      && Carries(ParseDocument(Render(ContentLines(f, reviews))), "DESCRIPTION:", Description(reviews[k]))
  {
    hide *;
    OpeningStarts(f);
    EventsStart(f, reviews);
    LinesStart(f, reviews);
    RenderReadsBack(ContentLines(f, reviews));
    forall k | 0 <= k < |reviews|
      ensures Carries(ContentLines(f, reviews), "SUMMARY:", Summary(reviews[k]))
      ensures Carries(ContentLines(f, reviews), "DESCRIPTION:", Description(reviews[k]))
    {
      CarriesBoth(f, reviews, k);
    }
  }

  /*************** the events of a document ***************/

  // The lines up to the end of the event they are in.
  function UpToEnd(lines: seq<string>): seq<string> {
    if lines == [] || lines[0] == "END:VEVENT" then [] else [lines[0]] + UpToEnd(lines[1..])
  }

  // What stands between each BEGIN:VEVENT and the next END:VEVENT.
  function ReadEvents(lines: seq<string>): seq<seq<string>>
    decreases |lines|
  {
    if lines == [] then []
    else if lines[0] == "BEGIN:VEVENT" then [UpToEnd(lines[1..])] + ReadEvents(lines[1..])
    else ReadEvents(lines[1..])
  }

  ghost predicate Reads(lines: seq<string>, name: string, text: string) { exists s :: name + s in lines && ReadText(s) == Some(text) }

  /** The event of a review: who, when, where and what it says, and its alarm. */
  ghost predicate EventOf(lines: seq<string>, f: Feed, r: Review) {
    exists own, alarm :: lines == own + alarm && OwnOf(own, f, r) && AlarmOf(alarm, f, r)
  }

  ghost predicate OwnOf(own: seq<string>, f: Feed, r: Review) {
    && "UID:" + (r.id + "-" + r.dueField + "@grcen") in own
    && "DTSTAMP:" + f.stamp in own
    && "DTSTART;VALUE=DATE:" + r.due in own
    && "URL:" + (f.baseUrl + "/assets/" + r.id) in own
    && "TRANSP:TRANSPARENT" in own
    && Reads(own, "SUMMARY:", r.heading + ": " + r.name)
    && Reads(own, "DESCRIPTION:", if r.owner in {None, Some("")} then "Status: " + r.status + "; Due field: " + r.dueField
                                  else "Status: " + r.status + "; Owner: " + r.owner.value + "; Due field: " + r.dueField)
  }

  ghost predicate AlarmOf(alarm: seq<string>, f: Feed, r: Review) {
    match f.alarmDays
    case None => alarm == []
    case Some(days) =>
      && |alarm| == 5 && alarm[0] == "BEGIN:VALARM" && alarm[4] == "END:VALARM"
      && alarm[1] == "ACTION:DISPLAY" && alarm[2] == "TRIGGER:-P" + (days + "D")
      && Reads(alarm, "DESCRIPTION:", r.heading + ": " + r.name)
  }

  function Inner(f: Feed, r: Review): seq<string> { Details(f, r)[1..] + Alarm(f, r) }

  // No line of it begins or ends an event.
  predicate InsideOne(lines: seq<string>) { forall l | l in lines :: l != "BEGIN:VEVENT" && l != "END:VEVENT" }

  lemma OtherName(name: string, text: string)
    requires name in {"UID:", "DTSTAMP:", "DTSTART;VALUE=DATE:", "SUMMARY:", "DESCRIPTION:", "URL:", "TRIGGER:-P"}
    ensures name + text != "BEGIN:VEVENT" && name + text != "END:VEVENT"
  {
    assert (name + text)[0] == name[0] && "BEGIN:VEVENT"[0] == 'B' && "END:VEVENT"[0] == 'E';
  }

  lemma FixedLines()
    ensures "TRANSP:TRANSPARENT" != "BEGIN:VEVENT" && "TRANSP:TRANSPARENT" != "END:VEVENT"
    ensures "BEGIN:VALARM" != "BEGIN:VEVENT" && "BEGIN:VALARM" != "END:VEVENT" && "END:VALARM" != "BEGIN:VEVENT" && "END:VALARM" != "END:VEVENT"
    ensures "ACTION:DISPLAY" != "BEGIN:VEVENT" && "ACTION:DISPLAY" != "END:VEVENT"
    ensures "END:VEVENT" != "BEGIN:VEVENT"
  {
    assert "TRANSP:TRANSPARENT"[0] == 'T' && "BEGIN:VEVENT"[0] == 'B' && "END:VEVENT"[0] == 'E' && "ACTION:DISPLAY"[0] == 'A';
    assert "BEGIN:VALARM"[7] == 'A' && "BEGIN:VEVENT"[7] == 'E' && "END:VALARM"[5] == 'A' && "END:VEVENT"[5] == 'E';
    assert "BEGIN:VALARM"[0] == 'B' && "END:VALARM"[0] == 'E';
  }

  lemma DetailsInside(f: Feed, r: Review)
    ensures InsideOne(Details(f, r)[1..])
  {
    OtherName("UID:", r.id + "-" + r.dueField + "@grcen");
    OtherName("DTSTAMP:", f.stamp);
    OtherName("DTSTART;VALUE=DATE:", r.due);
    OtherName("SUMMARY:", Escape(Summary(r)));
    OtherName("DESCRIPTION:", Escape(Description(r)));
    OtherName("URL:", f.baseUrl + "/assets/" + r.id);
    FixedLines();
    hide Escape, Summary, Description;
  }

  lemma AlarmInside(f: Feed, r: Review)
    ensures InsideOne(Alarm(f, r))
  {
    if f.alarmDays.Some? { OtherName("TRIGGER:-P", f.alarmDays.value + "D"); }
    OtherName("DESCRIPTION:", Escape(Summary(r)));
    FixedLines();
    hide Escape, Summary, Description;
  }

  lemma InnerInside(f: Feed, r: Review)
    ensures InsideOne(Inner(f, r)) && Event(f, r) == ["BEGIN:VEVENT"] + Inner(f, r) + ["END:VEVENT"]
  {
    DetailsInside(f, r);
    AlarmInside(f, r);
    assert Details(f, r)[0] == "BEGIN:VEVENT";
    hide Details, Alarm;
  }

  lemma {:induction false} ReadsInner(inner: seq<string>, rest: seq<string>)
    requires InsideOne(inner)
    ensures UpToEnd(inner + ["END:VEVENT"] + rest) == inner
    ensures ReadEvents(inner + ["END:VEVENT"] + rest) == ReadEvents(rest)
  {
    var s := inner + ["END:VEVENT"] + rest;
    FixedLines();
    if inner == [] {
      assert s[1..] == rest;
    } else {
      assert inner[0] in inner && s[0] == inner[0] && forall l | l in inner[1..] :: l in inner;
      assert s[1..] == inner[1..] + ["END:VEVENT"] + rest;
      ReadsInner(inner[1..], rest);
    }
  }

  lemma ReadsEvent(f: Feed, r: Review, rest: seq<string>)
    ensures ReadEvents(Event(f, r) + rest) == [Inner(f, r)] + ReadEvents(rest)
  {
    InnerInside(f, r);
    hide Inner, Event;
    var inner := Inner(f, r);
    ReadsInner(inner, rest);
    var s := Event(f, r) + rest;
    assert s[0] == "BEGIN:VEVENT";
    assert s[1..] == inner + ["END:VEVENT"] + rest;
  }

  function Inners(f: Feed, reviews: seq<Review>): seq<seq<string>> { seq(|reviews|, i requires 0 <= i < |reviews| => Inner(f, reviews[i])) }

  lemma {:induction false} ReadsAllEvents(f: Feed, reviews: seq<Review>, rest: seq<string>)
    ensures ReadEvents(Events(f, reviews) + rest) == Inners(f, reviews) + ReadEvents(rest)
  {
    hide Event, Inner, ReadEvents;
    if reviews == [] {
      assert [] + rest == rest;
    } else {
      var n := |reviews| - 1;
      var last := Event(f, reviews[n]);
      ReadsAllEvents(f, reviews[..n], last + rest);
      ReadsEvent(f, reviews[n], rest);
      assert Events(f, reviews) + rest == Events(f, reviews[..n]) + (last + rest);
      assert Inners(f, reviews) == Inners(f, reviews[..n]) + [Inner(f, reviews[n])];
    }
  }

  lemma {:induction false} ReadsNothing(lines: seq<string>, rest: seq<string>)
    requires forall l | l in lines :: l != "BEGIN:VEVENT"
    ensures ReadEvents(lines + rest) == ReadEvents(rest)
  {
    if lines == [] {
      assert [] + rest == rest;
    } else {
      assert lines[0] in lines && (lines + rest)[0] == lines[0] && (lines + rest)[1..] == lines[1..] + rest;
      assert forall l | l in lines[1..] :: l in lines;
      ReadsNothing(lines[1..], rest);
    }
  }

  lemma OpeningHasNone(f: Feed)
    ensures (forall l | l in Opening(f) :: l != "BEGIN:VEVENT") && "END:VCALENDAR" != "BEGIN:VEVENT"
  {
    hide Escape;
    var lines := Opening(f);
    assert "BEGIN:VEVENT"[7] == 'E' && "BEGIN:VEVENT"[0] == 'B' && "BEGIN:VCALENDAR"[7] == 'C' && "END:VCALENDAR"[0] == 'E';
    assert lines[0] == "BEGIN:VCALENDAR" && lines[1][0] == 'V' && lines[2][0] == 'P' && lines[3][0] == 'C' && lines[4][0] == 'X';
  }

  lemma DocumentEvents(f: Feed, reviews: seq<Review>)
    ensures ReadEvents(ContentLines(f, reviews)) == Inners(f, reviews)
  {
    OpeningHasNone(f);
    var end := ["END:VCALENDAR"];
    assert ContentLines(f, reviews) == Opening(f) + (Events(f, reviews) + end);
    ReadsNothing(Opening(f), Events(f, reviews) + end);
    ReadsAllEvents(f, reviews, end);
    ReadsNothing(end, []);
    assert end + [] == end && Inners(f, reviews) + [] == Inners(f, reviews);
  }

  lemma OwnIs(f: Feed, r: Review)
    ensures OwnOf(Details(f, r)[1..], f, r)
  {
    var own := Details(f, r)[1..];
    EscapeReadsBack(Summary(r));
    EscapeReadsBack(Description(r));
    DescriptionIs(r);
    hide Escape, ReadText, Description;
    assert own[0] in own && own[1] in own && own[2] in own && own[3] in own && own[4] in own && own[5] in own && own[6] in own;
    assert own[3] == "SUMMARY:" + Escape(Summary(r)) && own[4] == "DESCRIPTION:" + Escape(Description(r));
  }

  lemma DescriptionIs(r: Review)
    ensures Description(r) == if r.owner in {None, Some("")} then "Status: " + r.status + "; Due field: " + r.dueField
                              else "Status: " + r.status + "; Owner: " + r.owner.value + "; Due field: " + r.dueField
  {
    if r.owner in {None, Some("")} {
      assert "Status: " + r.status + "" + "; Due field: " + r.dueField == "Status: " + r.status + "; Due field: " + r.dueField;
    } else {
      assert "Status: " + r.status + ("; Owner: " + r.owner.value) + "; Due field: " + r.dueField
          == "Status: " + r.status + "; Owner: " + r.owner.value + "; Due field: " + r.dueField;
    }
  }

  lemma AlarmIs(f: Feed, r: Review)
    ensures AlarmOf(Alarm(f, r), f, r)
  {
    EscapeReadsBack(Summary(r));
    hide Escape, ReadText;
    var alarm := Alarm(f, r);
    if f.alarmDays.Some? { assert alarm[3] == "DESCRIPTION:" + Escape(Summary(r)) && alarm[3] in alarm; }
  }

  /** A reader of the document finds one event per review, in order, and each is the event of its own review: its UID,
      time stamp, due date, address, summary and description, and its alarm when the feed carries alarms. */
  lemma FeedShowsReviews(f: Feed, reviews: seq<Review>)
    requires forall i | 0 <= i < |reviews| :: PlainFields(f, reviews[i])
    ensures ShowsReviews(Render(ContentLines(f, reviews)), f, reviews)
  {
    hide *;
    FeedReadsBack(f, reviews);
    DocumentEvents(f, reviews);
    InnersAre(f, reviews);
    forall k | 0 <= k < |reviews| ensures EventOf(Inner(f, reviews[k]), f, reviews[k]) { InnerIs(f, reviews[k]); }
    ShownBy(Render(ContentLines(f, reviews)), f, reviews);
  }

  lemma ShownBy(doc: string, f: Feed, reviews: seq<Review>)
    requires ReadEvents(ParseDocument(doc)) == Inners(f, reviews)
    requires forall k | 0 <= k < |reviews| :: EventOf(Inner(f, reviews[k]), f, reviews[k])
    ensures ShowsReviews(doc, f, reviews)
  {
    hide ReadEvents, ParseDocument, Inner, EventOf;
  }

  lemma InnersAre(f: Feed, reviews: seq<Review>)
    ensures |Inners(f, reviews)| == |reviews| && forall k | 0 <= k < |reviews| :: Inners(f, reviews)[k] == Inner(f, reviews[k])
  {
    hide Inner;
  }

  lemma InnerIs(f: Feed, r: Review)
    ensures EventOf(Inner(f, r), f, r)
  {
    OwnIs(f, r);
    AlarmIs(f, r);
    var own, alarm := Details(f, r)[1..], Alarm(f, r);
    assert Inner(f, r) == own + alarm;
    hide *;
    EventIs(own, alarm, f, r);
  }

  lemma EventIs(own: seq<string>, alarm: seq<string>, f: Feed, r: Review)
    requires OwnOf(own, f, r) && AlarmOf(alarm, f, r)
    ensures EventOf(own + alarm, f, r)
  {
    hide OwnOf, AlarmOf;
  }

  /*************** a feed with a line over the ceiling ***************/

  const ACCENT := '\U{E9}'

  lemma {:induction false} AccentsEscape(n: nat)
    ensures Escape(Repeat(ACCENT, n)) == Repeat(ACCENT, n)
  {
    EscapeIsPerCharacter(Repeat(ACCENT, n));
    if n > 0 {
      AccentsEscape(n - 1);
      EscapeIsPerCharacter(Repeat(ACCENT, n - 1));
      assert Repeat(ACCENT, n)[1..] == Repeat(ACCENT, n - 1);
      assert Repeat(ACCENT, n) == [ACCENT] + Repeat(ACCENT, n - 1);
    }
  }

  lemma {:induction false} PlainEscapes(s: string)
    requires forall c | c in s :: c !in "\\;,\n"
    ensures Escape(s) == s
  {
    EscapeIsPerCharacter(s);
    if s != "" {
      assert forall c | c in s[1..] :: c in s;
      PlainEscapes(s[1..]);
      EscapeIsPerCharacter(s[1..]);
      assert s[0] in s && s == [s[0]] + s[1..];
    }
  }

  /** Every feed with a risk whose name is forty accented letters carries a SUMMARY of 65 characters that is
      written as one physical line of at least 105 octets. */
  lemma AccentedSummaryOverflows(f: Feed, reviews: seq<Review>, k: nat)
    requires k < |reviews| && reviews[k].heading == "Risk review due" && reviews[k].name == Repeat(ACCENT, 40)
    ensures var line := "SUMMARY:" + Escape(Summary(reviews[k]));
            line in ContentLines(f, reviews) && line in Pieces(line) && Octets(line) >= 105 && !AllFit(Pieces(line))
  {
    SummaryInside(f, reviews, k);
    RiskLine(reviews[k]);
    hide *;
    WideLine(RISK_LINE, Repeat(ACCENT, 40));
  }

  const RISK_LINE := "SUMMARY:Risk review due: "

  lemma RiskLine(r: Review)
    requires r.heading == "Risk review due" && r.name == Repeat(ACCENT, 40)
    ensures "SUMMARY:" + Escape(Summary(r)) == RISK_LINE + Repeat(ACCENT, 40) && |RISK_LINE| == 25
  {
    hide *;
    RiskLiterals();
    PlainEscapes(RISK_START);
    AccentsEscape(40);
    EscapeAppend(RISK_START, r.name);
    SummaryIs(r);
    assert "SUMMARY:" + (RISK_START + r.name) == ("SUMMARY:" + RISK_START) + r.name;
  }

  const RISK_START := "Risk review due: "

  lemma SummaryIs(r: Review)
    requires r.heading + ": " == RISK_START
    ensures Summary(r) == RISK_START + r.name
  {
    hide RISK_START;
  }

  lemma RiskLiterals()
    ensures "Risk review due" + ": " == RISK_START && "SUMMARY:" + RISK_START == RISK_LINE && |RISK_LINE| == 25
    ensures forall c | c in RISK_START :: c !in "\\;,\n"
  {
  }

  lemma WideLine(head: string, name: string)
    requires |head| == 25 && name == Repeat(ACCENT, 40)
    ensures Octets(head + name) >= 105 && head + name in Pieces(head + name) && !AllFit(Pieces(head + name))
  {
    OctetsAppend(head, name);
    RepeatOctets(ACCENT, 40);
    assert |name| == 40 && OctetsOf(ACCENT) == 2;
    hide Octets, Pieces, Repeat;
    ShortWideLineOverflows(head + name);
    assert Pieces(head + name)[0] == head + name;
  }
}
