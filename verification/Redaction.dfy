/** Removing the internal justification from an ETO (extra to order) note before it is emailed. */
module Redaction {
  import opened Base
  import opened Text

  const DASH := '\U{2014}'
  const INTERNAL: string := "INTERNAL REASON \U{2014} DO NOT EMAIL OR SHARE"
  const RESUME: string := "WHAT IS REQUIRED"
  const BANNER_HEAD: string := "ETO "
  const BANNER_TAIL: string := "EXTRA TO ORDER"

  const BLANK_LINE: string := "\n\n"

  // ----- Searching -----

  predicate OccursAt(s: string, needle: string, i: nat) {
    i + |needle| <= |s| && s[i..i + |needle|] == needle
  }

  ghost predicate Contains(s: string, needle: string) {
    exists i: nat :: OccursAt(s, needle, i)
  }

  /** The first occurrence from `i` on. */
  function FindFrom(s: string, needle: string, i: nat): (r: Option<nat>)
    requires i <= |s|
    ensures r.Some? ==> i <= r.value && OccursAt(s, needle, r.value)
    ensures forall k :: i <= k && (r.Some? ==> k < r.value) ==> !OccursAt(s, needle, k)
    decreases |s| - i
  {
    if OccursAt(s, needle, i) then Some(i)
    else if i == |s| then None
    else FindFrom(s, needle, i + 1)
  }

  function Find(s: string, needle: string): Option<nat> {
    FindFrom(s, needle, 0)
  }

  /** Where `c` first stands in `s`, or its length. */
  function IndexOf(s: string, c: char): (k: nat)
    ensures k <= |s|
    ensures k < |s| ==> s[k] == c
    ensures forall j :: 0 <= j < k ==> s[j] != c
  {
    if s == "" || s[0] == c then 0 else 1 + IndexOf(s[1..], c)
  }

  // ----- ETO notes -----

  function Lines(s: string): seq<string> {
    if s == "" then []
    else
      var k := IndexOf(s, '\n');
      if k == |s| then [s]
      else [if k > 0 && s[k - 1] == '\r' then s[..k - 1] else s[..k]] + Lines(s[k + 1..])
  }

  /** A number, a dash and the order heading, in what follows `ETO` on a line. */
  predicate IsNumbered(rest: string) {
    var k := IndexOf(rest, DASH);
    k < |rest| && !IsBlank(rest[..k]) && BANNER_TAIL <= TrimStart(rest[k + 1..])
  }

  predicate IsBanner(line: string) {
    BANNER_HEAD <= line && IsNumbered(line[|BANNER_HEAD|..])
  }

  predicate IsEtoNote(s: string) {
    exists line :: line in Lines(s) && IsBanner(line)
  }

  // ----- Redaction -----

  /** A note the redaction changes: an ETO note with the internal heading in it. */
  predicate Redacts(s: string) {
    IsEtoNote(s) && Find(s, INTERNAL).Some?
  }

  /** The shareable text before the internal heading. */
  function Opening(s: string): string
    requires Redacts(s)
  {
    s[..Find(s, INTERNAL).value]
  }

  /** The text from the first resume heading after the internal heading on; nothing if there is none. */
  function KeptTail(s: string): string
    requires Redacts(s)
  {
    var after := s[Find(s, INTERNAL).value + |INTERNAL|..];
    var resume := Find(after, RESUME);
    if resume.None? then "" else after[resume.value..]
  }

  function Joined(opening: string, tail: string): string {
    if tail == "" then TrimEnd(opening) else TrimEnd(opening) + BLANK_LINE + tail
  }

  function Redacted(s: string): string {
    if Redacts(s) then Trim(Joined(Opening(s), KeptTail(s))) else s
  }

  method RedactInternalReason(content: string) returns (r: string)
    ensures r == Redacted(content)
  {
    if !IsEtoNote(content) {
      return content;
    }
    var start := Find(content, INTERNAL);
    if start.None? {
      return content;
    }
    var after := content[start.value + |INTERNAL|..];
    var offset := Find(after, RESUME);
    var keptTail := if offset.None? then "" else after[offset.value..];
    var out := TrimEnd(content[..start.value]);
    if keptTail != "" {
      out := out + BLANK_LINE;
      out := out + keptTail;
    }
    assert out == Joined(Opening(content), KeptTail(content));
    return Trim(out);
  }

  // ----- Trimming -----

  lemma {:induction false} TrimEndIsPrefix(s: string) returns (k: nat)
    ensures k <= |s| && TrimEnd(s) == s[..k]
    ensures forall i :: k <= i < |s| ==> IsWhitespace(s[i])
    ensures k > 0 ==> !IsWhitespace(s[k - 1])
  {
    if s != [] && IsWhitespace(s[|s| - 1]) {
      k := TrimEndIsPrefix(s[..|s| - 1]);
      assert s[..|s| - 1][..k] == s[..k];
    } else {
      k := |s|;
      assert s[..k] == s;
    }
  }

  lemma {:induction false} TrimStartIsSuffix(s: string) returns (k: nat)
    ensures k <= |s| && TrimStart(s) == s[k..]
    ensures forall i :: 0 <= i < k ==> IsWhitespace(s[i])
    ensures k < |s| ==> !IsWhitespace(s[k])
  {
    if s != [] && IsWhitespace(s[0]) {
      var j := TrimStartIsSuffix(s[1..]);
      k := j + 1;
      assert s[1..][j..] == s[k..];
    } else {
      k := 0;
      assert s[k..] == s;
    }
  }

  /** `Trim` cuts a window out of the text, with white space on either side of it. */
  lemma TrimIsWindow(s: string) returns (lo: nat, hi: nat)
    ensures lo <= hi <= |s| && Trim(s) == s[lo..hi]
    ensures forall i :: 0 <= i < lo || hi <= i < |s| ==> IsWhitespace(s[i])
    ensures lo < hi ==> !IsWhitespace(s[lo]) && !IsWhitespace(s[hi - 1])
  {
    lo := TrimStartIsSuffix(s);
    var k := TrimEndIsPrefix(s[lo..]);
    hi := lo + k;
    assert s[lo..][..k] == s[lo..hi];
    assert forall i :: hi <= i < |s| ==> s[i] == s[lo..][i - lo];
  }

  // ----- Where a heading can stand -----

  /** A heading: one line, with no white space at either end. */
  predicate Heading(h: string) {
    h != "" && !IsWhitespace(h[0]) && !IsWhitespace(h[|h| - 1]) && '\n' !in h
  }

  lemma HeadingsAreHeadings()
    ensures Heading(INTERNAL) && Heading(RESUME) && |INTERNAL| > 2
  {
  }

  lemma OccurrenceHas(s: string, h: string, i: nat, j: nat)
    requires OccursAt(s, h, i) && j < |h|
    ensures s[i + j] == h[j]
  {
    assert s[i..i + |h|][j] == h[j];
  }

  /** An occurrence within the middle part is an occurrence in the whole, and the other way round. */
  lemma OccursInMiddle(x: string, y: string, z: string, h: string, i: nat)
    requires i + |h| <= |y|
    ensures OccursAt(y, h, i) <==> OccursAt(x + y + z, h, |x| + i)
  {
    var s := x + y + z;
    assert forall j :: 0 <= j < |y| ==> y[j] == s[|x| + j];
    assert s[|x| + i..|x| + i + |h|] == y[i..i + |h|];
  }

  /** White space at the ends of a text is never part of a heading in it. */
  lemma TrimKeepsHeadings(s: string, h: string)
    requires Heading(h)
    ensures Contains(Trim(s), h) <==> Contains(s, h)
  {
    var lo, hi := TrimIsWindow(s);
    assert s == s[..lo] + Trim(s) + s[hi..];
    if i: nat :| OccursAt(Trim(s), h, i) {
      OccursInMiddle(s[..lo], Trim(s), s[hi..], h, i);
      assert OccursAt(s, h, lo + i);
    }
    if i: nat :| OccursAt(s, h, i) {
      OccurrenceHas(s, h, i, 0);
      OccurrenceHas(s, h, i, |h| - 1);
      OccursInMiddle(s[..lo], Trim(s), s[hi..], h, i - lo);
    }
  }

  /** A heading does not run across a line break. */
  lemma HeadingKeepsToOneSide(a: string, b: string, h: string, i: nat)
    requires Heading(h) && OccursAt(a + BLANK_LINE + b, h, i)
    ensures if i + |h| <= |a| then OccursAt(a, h, i) else i >= |a| + 2 && OccursAt(b, h, i - |a| - 2)
  {
    var s := a + BLANK_LINE + b;
    assert s == "" + a + (BLANK_LINE + b) && s == a + BLANK_LINE + b + "";
    if i + |h| <= |a| {
      OccursInMiddle("", a, BLANK_LINE + b, h, i);
    } else if i >= |a| + 2 {
      OccursInMiddle(a + BLANK_LINE, b, "", h, i - |a| - 2);
    } else {
      OccurrenceHas(s, h, i, if i <= |a| then |a| - i else 0);
    }
  }

  lemma HeadingsDoNotStraddle(a: string, b: string, h: string)
    requires Heading(h)
    ensures Contains(a + BLANK_LINE + b, h) <==> Contains(a, h) || Contains(b, h)
  {
    var s := a + BLANK_LINE + b;
    assert s == "" + a + (BLANK_LINE + b) && s == a + BLANK_LINE + b + "";
    if i: nat :| OccursAt(a, h, i) {
      OccursInMiddle("", a, BLANK_LINE + b, h, i);
    }
    if i: nat :| OccursAt(b, h, i) {
      OccursInMiddle(a + BLANK_LINE, b, "", h, i);
      assert OccursAt(s, h, |a| + 2 + i);
    }
    if i: nat :| OccursAt(s, h, i) {
      HeadingKeepsToOneSide(a, b, h, i);
    }
  }

  // ----- What a redaction leaves -----

  lemma KeptTailResumes(s: string)
    requires Redacts(s) && KeptTail(s) != ""
    ensures TrimStart(KeptTail(s)) == KeptTail(s) && TrimEnd(KeptTail(s)) != ""
  {
    HeadingsAreHeadings();
    var after := s[Find(s, INTERNAL).value + |INTERNAL|..];
    OccurrenceHas(after, RESUME, Find(after, RESUME).value, 0);
    assert KeptTail(s)[0] == RESUME[0];
    var k := TrimEndIsPrefix(KeptTail(s));
  }

  function Halves(opening: string, tail: string): string {
    if opening == "" || tail == "" then opening + tail else opening + BLANK_LINE + tail
  }

  lemma Regroup(a: string, b: string, c: string)
    ensures a + (b + c) == a + b + c
  {
  }

  lemma BlankLineIsBlank()
    ensures AllWhitespace(BLANK_LINE) && |BLANK_LINE| == 2 && BLANK_LINE[0] == BLANK_LINE[1] == '\n'
  {
  }

  lemma TrimAround(head: string, gap: string, tail: string)
    requires AllWhitespace(gap) && TrimEnd(tail) != ""
    ensures Trim(head + (gap + tail)) ==
      if TrimStart(head) == "" then Trim(tail) else TrimStart(head) + (gap + TrimEnd(tail))
  {
    calc {
      Trim(head + (gap + tail));
    ==  { TrimEitherWay(head + (gap + tail)); }
      TrimStart(TrimEnd(head + (gap + tail)));
    ==  { TrimEndAppend(gap, tail); TrimEndAppend(head, gap + tail); }
      TrimStart(head + (gap + TrimEnd(tail)));
    ==  { TrimStartAppend(head, gap + TrimEnd(tail)); }
      if TrimStart(head) == "" then TrimStart(gap + TrimEnd(tail)) else TrimStart(head) + (gap + TrimEnd(tail));
    ==  { TrimsToNothing(gap); TrimStartAppend(gap, TrimEnd(tail)); TrimEitherWay(tail); }
      if TrimStart(head) == "" then Trim(tail) else TrimStart(head) + (gap + TrimEnd(tail));
    }
  }

  lemma JoinTrims(opening: string, tail: string)
    requires tail != "" ==> TrimStart(tail) == tail && TrimEnd(tail) != ""
    ensures Trim(Joined(opening, tail)) == Halves(Trim(opening), Trim(tail))
  {
    var head := TrimEnd(opening);
    TrimEitherWay(opening);
    if tail == "" {
      TrimEndTwice(opening);
      TrimEitherWay(head);
    } else {
      BlankLineIsBlank();
      TrimAround(head, BLANK_LINE, tail);
      Regroup(head, BLANK_LINE, tail);
      Regroup(TrimStart(head), BLANK_LINE, TrimEnd(tail));
    }
  }

  /** The trimmed opening and the trimmed tail, with a blank line between them if both have text. */
  lemma RedactedIs(s: string)
    requires Redacts(s)
    ensures Redacted(s) == Halves(Trim(Opening(s)), Trim(KeptTail(s)))
  {
    if KeptTail(s) != "" {
      KeptTailResumes(s);
    }
    JoinTrims(Opening(s), KeptTail(s));
  }

  lemma CutAt(s: string, h: string, n: nat)
    requires OccursAt(s, h, n)
    ensures s == s[..n] + h + s[n + |h|..]
  {
    assert s[n..n + |h|] == h;
  }

  /** `n` is where `h` first stands in `s`. */
  predicate FirstAt(s: string, h: string, n: nat) {
    OccursAt(s, h, n) && forall k :: 0 <= k < n ==> !OccursAt(s, h, k)
  }

  /**
   * What is cut out runs from the first internal heading up to the first resume heading behind it,
   * or to the end if there is none; what is on either side is all that is left.
   */
  lemma RedactionCuts(s: string) returns (opening: string, dropped: string, tail: string)
    requires IsEtoNote(s) && Contains(s, "INTERNAL REASON \U{2014} DO NOT EMAIL OR SHARE")
    ensures s == opening + "INTERNAL REASON \U{2014} DO NOT EMAIL OR SHARE" + (dropped + tail)
    ensures FirstAt(s, "INTERNAL REASON \U{2014} DO NOT EMAIL OR SHARE", |opening|)
    ensures if Contains(dropped + tail, "WHAT IS REQUIRED") then FirstAt(dropped + tail, "WHAT IS REQUIRED", |dropped|)
            else tail == ""
    ensures Redacted(s) == Halves(Trim(opening), Trim(tail))
  {
    var n := Find(s, INTERNAL).value;
    var after := s[n + |INTERNAL|..];
    opening, tail := Opening(s), KeptTail(s);
    dropped := if Find(after, RESUME).None? then after else after[..Find(after, RESUME).value];
    CutAt(s, INTERNAL, n);
    assert after == dropped + tail;
    RedactedIs(s);
  }

  /** Every other note is sent as it is. */
  lemma OthersAreUntouched(s: string)
    requires !IsEtoNote(s) || !Contains(s, INTERNAL)
    ensures Redacted(s) == s
  {
  }

  lemma NothingBeforeFirst(s: string, h: string)
    requires h != "" && Find(s, h).Some?
    ensures !Contains(s[..Find(s, h).value], h)
  {
    var n := Find(s, h).value;
    forall i: nat ensures !OccursAt(s[..n], h, i) {
      if i + |h| <= n {
        assert s == "" + s[..n] + s[n..];
        OccursInMiddle("", s[..n], s[n..], h, i);
      }
    }
  }

  lemma OpeningHasNoHeading(s: string)
    requires Redacts(s)
    ensures !Contains(Trim(Opening(s)), INTERNAL)
  {
    HeadingsAreHeadings();
    NothingBeforeFirst(s, INTERNAL);
    TrimKeepsHeadings(Opening(s), INTERNAL);
  }

  /** The heading survives a redaction exactly when it stands again in the text that is kept. */
  lemma HeadingSurvivesIff(s: string)
    requires Redacts(s)
    ensures Contains(Redacted(s), INTERNAL) <==> Contains(KeptTail(s), INTERNAL)
  {
    HeadingsAreHeadings();
    RedactedIs(s);
    OpeningHasNoHeading(s);
    TrimKeepsHeadings(KeptTail(s), INTERNAL);
    var opening, tail := Trim(Opening(s)), Trim(KeptTail(s));
    HeadingsDoNotStraddle(opening, tail, INTERNAL);
    assert opening + "" == opening && "" + tail == tail;
  }

  lemma RedactionShortens(s: string)
    requires Redacts(s)
    ensures |Redacted(s)| < |s|
  {
    HeadingsAreHeadings();
    var k := TrimEndIsPrefix(Opening(s));
    var lo, hi := TrimIsWindow(Joined(Opening(s), KeptTail(s)));
  }

  /** Redacting again changes nothing exactly when the result is no longer an ETO note or the kept text is clean. */
  lemma IdempotentIff(s: string)
    requires Redacts(s)
    ensures Redacted(Redacted(s)) == Redacted(s) <==> !IsEtoNote(Redacted(s)) || !Contains(KeptTail(s), INTERNAL)
  {
    HeadingSurvivesIff(s);
    if Redacts(Redacted(s)) {
      RedactionShortens(Redacted(s));
    }
  }

  /** Redacting until nothing changes. */
  ghost function RedactedFully(s: string): (r: string)
    ensures !IsEtoNote(r) || !Contains(r, INTERNAL)
    decreases |s|
  {
    if Redacts(s) then
      RedactionShortens(s);
      RedactedFully(Redacted(s))
    else s
  }

  // ----- What counts as a banner -----

  function Numbered(number: string, gap: string, rest: string): string {
    number + (['\U{2014}'] + (gap + ("EXTRA TO ORDER" + rest)))
  }

  predicate Reads(rest: string, number: string, gap: string, more: string) {
    rest == Numbered(number, gap, more) && DASH !in number && !IsBlank(number) && AllWhitespace(gap)
  }

  lemma SplitAtFirst(a: string, c: char, u: string)
    requires c !in a
    ensures var s := a + ([c] + u); IndexOf(s, c) == |a| && s[..|a|] == a && s[|a| + 1..] == u
  {
    var s := a + ([c] + u);
    assert forall i :: 0 <= i < |a| ==> s[i] == a[i];
    assert s[|a|] == c;
  }

  lemma SkipGap(gap: string, tail: string)
    requires AllWhitespace(gap) && tail != "" && !IsWhitespace(tail[0])
    ensures TrimStart(gap + tail) == tail
  {
    TrimsToNothing(gap);
    TrimStartAppend(gap, tail);
  }

  lemma NumberedFrom(rest: string, number: string, gap: string, more: string)
    requires Reads(rest, number, gap, more)
    ensures IsNumbered(rest)
  {
    var tail := BANNER_TAIL + more;
    SplitAtFirst(number, DASH, gap + tail);
    assert tail[0] == BANNER_TAIL[0] == 'E';
    SkipGap(gap, tail);
  }

  lemma NumberedInto(rest: string) returns (number: string, gap: string, more: string)
    requires IsNumbered(rest)
    ensures Reads(rest, number, gap, more)
  {
    var k := IndexOf(rest, DASH);
    var t := rest[k + 1..];
    var tail;
    gap, tail := GapThenText(t);
    number, more := rest[..k], tail[|BANNER_TAIL|..];
    PrefixSplits(BANNER_TAIL, tail);
    SplitAround(rest, k);
  }

  lemma PrefixSplits(p: string, s: string)
    requires p <= s
    ensures s == p + s[|p|..]
  {
  }

  lemma SplitAround(s: string, k: nat)
    requires k < |s|
    ensures s == s[..k] + ([s[k]] + s[k + 1..])
  {
  }

  lemma GapThenText(t: string) returns (gap: string, tail: string)
    ensures t == gap + tail && AllWhitespace(gap) && tail == TrimStart(t)
  {
    var m := TrimStartIsSuffix(t);
    gap, tail := t[..m], t[m..];
  }

  /** What follows `ETO` makes a banner exactly if it reads number, dash, gap, order heading, no dash in the number. */
  lemma NumberedIff(rest: string)
    ensures IsNumbered(rest) <==> exists number, gap, more :: Reads(rest, number, gap, more)
  {
    if IsNumbered(rest) {
      var number, gap, more := NumberedInto(rest);
    }
    if number, gap, more :| Reads(rest, number, gap, more) {
      NumberedFrom(rest, number, gap, more);
    }
  }

  // ----- A banner before the first heading -----

  /** A banner at the start of a line: after `head`, which is empty or ends its line. */
  predicate Tops(head: string, line: string) {
    (head == "" || head[|head| - 1] == '\n') && '\n' !in line && IsBanner(line)
  }

  ghost predicate HasBanner(text: string) {
    exists head, line, rest :: text == head + (line + rest) && Tops(head, line)
  }

  /** A note laid out from the top: the text before the first internal heading has a banner. */
  ghost predicate BannerFirst(s: string) {
    Find(s, INTERNAL).Some? ==> HasBanner(s[..Find(s, INTERNAL).value])
  }

  lemma HasBannerGrows(x: string, y: string)
    requires HasBanner(x)
    ensures HasBanner(x + y)
  {
    var head, line, rest :| x == head + (line + rest) && Tops(head, line);
    assert x + y == head + (line + (rest + y));
  }

  lemma NumberedSplits(number: string, gap: string, more: string)
    ensures Numbered(number, gap, more) == Numbered(number, gap, "") + more
  {
    var tail := BANNER_TAIL;
    assert tail + "" == tail;
    Regroup(gap, tail, more);
    Regroup([DASH], gap + tail, more);
    Regroup(number, [DASH] + (gap + tail), more);
  }

  lemma CoreIsBanner(number: string, gap: string, more: string)
    requires DASH !in number && !IsBlank(number) && AllWhitespace(gap)
    ensures IsBanner(BANNER_HEAD + Numbered(number, gap, "") + more)
  {
    var numbered := Numbered(number, gap, more);
    NumberedSplits(number, gap, more);
    Regroup(BANNER_HEAD, Numbered(number, gap, ""), more);
    var line := BANNER_HEAD + numbered;
    assert line[..|BANNER_HEAD|] == BANNER_HEAD && line[|BANNER_HEAD|..] == numbered;
    NumberedFrom(numbered, number, gap, more);
  }

  /** Begins and ends in a visible character. */
  predicate Solid(s: string) {
    s != "" && !IsWhitespace(s[0]) && !IsWhitespace(s[|s| - 1])
  }

  lemma CoreIsSolid(number: string, gap: string)
    ensures Solid(BANNER_HEAD + Numbered(number, gap, ""))
  {
    var core, n := BANNER_HEAD + Numbered(number, gap, ""), |BANNER_TAIL|;
    assert core[0] == BANNER_HEAD[0] == 'E';
    assert BANNER_TAIL + "" == BANNER_TAIL;
    assert core[|core| - 1] == BANNER_TAIL[n - 1] == 'R';
  }

  lemma BannerInLonger(x: string, y: string)
    requires HasBanner(x) && x <= y
    ensures HasBanner(y)
  {
    HasBannerGrows(x, y[|x|..]);
    assert y == x + y[|x|..];
  }

  /** What makes a line a banner is a prefix of it that begins and ends in a letter. */
  lemma BannerCore(line: string) returns (core: string, more: string)
    requires IsBanner(line)
    ensures line == core + more && Solid(core)
    ensures forall l :: core <= l ==> IsBanner(l)
  {
    var number, gap, rest := NumberedInto(line[|BANNER_HEAD|..]);
    core, more := BANNER_HEAD + Numbered(number, gap, ""), rest;
    assert line == BANNER_HEAD + line[|BANNER_HEAD|..];
    NumberedSplits(number, gap, rest);
    Regroup(BANNER_HEAD, Numbered(number, gap, ""), rest);
    CoreIsSolid(number, gap);
    forall l | core <= l ensures IsBanner(l) {
      CoreIsBanner(number, gap, l[|core|..]);
      assert l == core + l[|core|..];
    }
  }

  ghost predicate HasLine(s: string, line: string) {
    exists l :: l in Lines(s) && line <= l
  }

  lemma FirstLine(line: string, rest: string)
    requires Solid(line) && '\n' !in line
    ensures HasLine(line + rest, line)
  {
    var s := line + rest;
    var k := IndexOf(s, '\n');
    assert s[..|line|] == line;
    assert k >= |line| by {
      assert forall i :: 0 <= i < |line| ==> s[i] == line[i];
    }
    assert s[|line| - 1] == line[|line| - 1];
    assert Lines(s)[0] in Lines(s) && line <= Lines(s)[0];
  }

  lemma LinesBelow(above: string, rest: string, line: string)
    requires '\n' !in above && HasLine(rest, line)
    ensures HasLine(above + (['\n'] + rest), line)
  {
    SplitAtFirst(above, '\n', rest);
    var s := above + (['\n'] + rest);
    var l :| l in Lines(rest) && line <= l;
    assert Lines(s) == [Lines(s)[0]] + Lines(rest);
    assert l in Lines(s);
  }

  lemma {:induction false} LineFrom(head: string, text: string, line: string)
    requires (head == "" || head[|head| - 1] == '\n') && HasLine(text, line)
    ensures HasLine(head + text, line)
    decreases |head|
  {
    if head == "" {
      assert head + text == text;
    } else {
      var k := IndexOf(head, '\n');
      var above, below := head[..k], head[k + 1..];
      assert head == above + (['\n'] + below);
      Regroup(above, ['\n'] + below, text);
      Regroup(['\n'], below, text);
      assert below != "" ==> below[|below| - 1] == head[|head| - 1];
      LineFrom(below, text, line);
      LinesBelow(above, below + text, line);
    }
  }

  lemma BannerMakesEtoNote(text: string)
    requires HasBanner(text)
    ensures IsEtoNote(text)
  {
    var head, line, rest :| text == head + (line + rest) && Tops(head, line);
    var core, more := BannerCore(line);
    Regroup(core, more, rest);
    FirstLine(core, more + rest);
    LineFrom(head, core + (more + rest), core);
  }

  lemma {:induction false} LineIsThere(s: string, l: string) returns (head: string, rest: string)
    requires l in Lines(s)
    ensures s == head + (l + rest) && (head == "" || head[|head| - 1] == '\n') && '\n' !in l
  {
    var k := IndexOf(s, '\n');
    if l == Lines(s)[0] {
      head, rest := "", s[|l|..];
      assert s == l + rest;
    } else {
      assert Lines(s) == [Lines(s)[0]] + Lines(s[k + 1..]);
      var above := s[..k] + ['\n'];
      var h;
      h, rest := LineIsThere(s[k + 1..], l);
      head := above + h;
      assert s == above + s[k + 1..];
      Regroup(above, h, l + rest);
    }
  }

  /** A note is an ETO note exactly if a banner stands at the start of one of its lines. */
  lemma EtoNoteIff(s: string)
    ensures IsEtoNote(s) <==> HasBanner(s)
  {
    if HasBanner(s) { BannerMakesEtoNote(s); }
    if IsEtoNote(s) {
      var l :| l in Lines(s) && IsBanner(l);
      var head, rest := LineIsThere(s, l);
      assert Tops(head, l);
    }
  }

  lemma TrimAroundCore(head: string, core: string, rest: string)
    requires Solid(core)
    ensures Trim(head + (core + rest)) == TrimStart(head) + (core + TrimEnd(rest))
  {
    var body := core + TrimEnd(rest);
    TrimEndAppend(core, rest);
    TrimEndAppend(head, core + rest);
    TrimEitherWay(head + (core + rest));
    assert core + "" == core;
    assert body[0] == core[0];
    TrimStartAppend(head, body);
    assert "" + body == body;
  }

  lemma BannerSurvivesTrim(text: string)
    requires HasBanner(text)
    ensures HasBanner(Trim(text)) && Trim(text) != ""
  {
    var head, line, rest :| text == head + (line + rest) && Tops(head, line);
    var core, more := BannerCore(line);
    Regroup(core, more, rest);
    TrimAroundCore(head, core, more + rest);
    var k := TrimStartIsSuffix(head);
    assert Tops(TrimStart(head), core);
  }

  /** The banner stays put while the heading after it goes, and any heading left comes after it. */
  lemma RedactionKeepsBannerFirst(s: string)
    requires Redacts(s) && BannerFirst(s)
    ensures BannerFirst(Redacted(s))
  {
    HeadingsAreHeadings();
    BannerSurvivesTrim(Opening(s));
    OpeningHasNoHeading(s);
    RedactedIs(s);
    var opening, o := Trim(Opening(s)), Redacted(s);
    if Find(o, INTERNAL).Some? {
      var j := Find(o, INTERNAL).value;
      HeadingStaysBehind(opening, Trim(KeptTail(s)), INTERNAL, j);
      BannerInLonger(opening, o[..j]);
    }
  }

  lemma HeadingStaysBehind(opening: string, tail: string, h: string, j: nat)
    requires Heading(h) && opening != "" && !Contains(opening, h) && OccursAt(Halves(opening, tail), h, j)
    ensures j >= |opening| && opening <= Halves(opening, tail)
  {
    assert opening + "" == opening;
    if tail != "" {
      HeadingKeepsToOneSide(opening, tail, h, j);
    }
  }

  lemma HeadingAfterBanner(s: string)
    requires BannerFirst(s) && Contains(s, INTERNAL)
    ensures Redacts(s)
  {
    var n := Find(s, INTERNAL).value;
    BannerInLonger(s[..n], s);
    BannerMakesEtoNote(s);
  }

  /** Redacting such a note until nothing changes leaves no internal heading in it. */
  lemma {:induction false} FullyRedactedIsClean(s: string)
    requires BannerFirst(s)
    ensures !Contains(RedactedFully(s), INTERNAL)
    decreases |s|
  {
    if Redacts(s) {
      RedactionShortens(s);
      RedactionKeepsBannerFirst(s);
      FullyRedactedIsClean(Redacted(s));
    } else if Contains(s, INTERNAL) {
      HeadingAfterBanner(s);
    }
  }

  /** One pass is enough for such a note exactly when the text it keeps has no further internal heading. */
  lemma OnePassIsEnoughIff(s: string)
    requires Redacts(s) && BannerFirst(s)
    ensures Redacted(Redacted(s)) == Redacted(s) <==> !Contains(KeptTail(s), INTERNAL)
    ensures Redacted(s) == RedactedFully(s) <==> !Contains(KeptTail(s), INTERNAL)
  {
    HeadingSurvivesIff(s);
    IdempotentIff(s);
    RedactionKeepsBannerFirst(s);
    FullyRedactedIsClean(s);
    if Contains(Redacted(s), INTERNAL) {
      HeadingAfterBanner(Redacted(s));
    }
  }

  // ----- Where the promise fails -----

  lemma FindAfter(opening: string, h: string, rest: string)
    requires h != "" && h[0] !in opening
    ensures var s := opening + (h + rest);
      Find(s, h) == Some(|opening|) && s[..|opening|] == opening && s[|opening| + |h|..] == rest
  {
    var s := opening + (h + rest);
    assert s[|opening|..|opening| + |h|] == h;
    assert OccursAt(s, h, |opening|);
    forall i: nat | i < |opening| ensures !OccursAt(s, h, i) {
      if OccursAt(s, h, i) {
        OccurrenceHas(s, h, i, 0);
      }
    }
  }

  lemma StartsWith(h: string, rest: string)
    ensures Find(h + rest, h) == Some(0) && OccursAt(h + rest, h, 0)
  {
    assert (h + rest)[0..|h|] == h;
  }

  function Repeating(opening: string, rest: string): string {
    opening + (INTERNAL + (RESUME + (INTERNAL + rest)))
  }

  lemma RepeatingTail(opening: string, rest: string)
    requires INTERNAL[0] !in opening && IsEtoNote(Repeating(opening, rest))
    ensures var s := Repeating(opening, rest);
      Redacts(s) && Opening(s) == opening && KeptTail(s) == RESUME + (INTERNAL + rest)
  {
    FindAfter(opening, INTERNAL, RESUME + (INTERNAL + rest));
    StartsWith(RESUME, INTERNAL + rest);
  }

  /** A note that repeats the internal heading under the resume heading goes out with it after one pass. */
  lemma RepeatedHeadingIsSent(opening: string, rest: string)
    requires HasBanner(opening) && INTERNAL[0] !in opening
    ensures var s := Repeating(opening, rest);
      Redacts(s) && Contains(Redacted(s), INTERNAL) && Redacted(Redacted(s)) != Redacted(s)
  {
    var s := Repeating(opening, rest);
    BannerInLonger(opening, s);
    BannerMakesEtoNote(s);
    RepeatingTail(opening, rest);
    StartsWith(INTERNAL, rest);
    assert OccursAt(INTERNAL + rest, INTERNAL, 0);
    assert RESUME + (INTERNAL + rest) + "" == RESUME + (INTERNAL + rest);
    OccursInMiddle(RESUME, INTERNAL + rest, "", INTERNAL, 0);
    HeadingSurvivesIff(s);
    OnePassIsEnoughIff(s);
  }

  lemma WholeLineHasBanner(line: string)
    requires IsBanner(line) && '\n' !in line
    ensures HasBanner(line)
  {
    assert line == "" + (line + "");
    assert Tops("", line);
  }

  lemma NotInNumbered(number: string, c: char)
    requires c !in number && c != DASH && c !in BANNER_TAIL && c !in BANNER_HEAD
    ensures c !in BANNER_HEAD + Numbered(number, "", "")
  {
    assert BANNER_TAIL + "" == BANNER_TAIL && "" + BANNER_TAIL == BANNER_TAIL;
  }

  lemma NotInSample(c: char)
    requires c == '\n' || c == 'I'
    ensures c !in BANNER_HEAD + Numbered("1", "", "")
  {
    NotInNumbered("1", c);
  }

  const SAMPLE_OPENING := BANNER_HEAD + Numbered("1", "", "")

  lemma SampleOpening()
    ensures HasBanner(SAMPLE_OPENING) && INTERNAL[0] !in SAMPLE_OPENING
  {
    assert "1"[0] == '1' && !IsBlank("1");
    CoreIsBanner("1", "", "");
    var opening := BANNER_HEAD + Numbered("1", "", "");
    assert opening + "" == opening;
    NotInSample('\n');
    NotInSample('I');
    WholeLineHasBanner(opening);
  }

  /** One such note. */
  lemma SampleIsSent()
    ensures var s := Repeating(SAMPLE_OPENING, "");
      Redacts(s) && Contains(Redacted(s), INTERNAL) && Redacted(Redacted(s)) != Redacted(s)
  {
    SampleOpening();
    RepeatedHeadingIsSent(SAMPLE_OPENING, "");
  }

  /** The pattern the recognition is documented to match. */
  ghost predicate LegacyBanner(line: string) {
    exists lead, number, gap, rest :: ReadsLegacy(line, lead, number, gap, rest)
  }

  ghost predicate ReadsLegacy(line: string, lead: string, number: string, gap: string, rest: string) {
    && line == "ETO" + (lead + (number + Numbered("", gap, rest)))
    && lead != "" && AllWhitespace(lead) && number != "" && AllWhitespace(gap)
  }

  lemma HeadSplits(rest: string)
    ensures BANNER_HEAD + rest == "ETO" + (" " + rest)
  {
    assert BANNER_HEAD == "ETO" + " ";
    Regroup("ETO", " ", rest);
  }

  lemma NumberStandsApart(number: string, gap: string, more: string)
    ensures Numbered(number, gap, more) == number + Numbered("", gap, more)
  {
    var tail := [DASH] + (gap + (BANNER_TAIL + more));
    assert "" + tail == tail;
  }

  lemma BannersAreLegacyBanners(line: string)
    requires IsBanner(line)
    ensures LegacyBanner(line)
  {
    var rest := line[|BANNER_HEAD|..];
    var number, gap, more := NumberedInto(rest);
    PrefixSplits(BANNER_HEAD, line);
    HeadSplits(rest);
    NumberStandsApart(number, gap, more);
    assert IsBlank("") && number != "";
    assert ReadsLegacy(line, " ", number, gap, more);
  }

  /** What the line holds up to its first dash, after the first four characters. */
  function BeforeDash(line: string): string
    requires |line| >= 4
  {
    line[4..][..IndexOf(line[4..], DASH)]
  }

  function AfterDash(line: string): string
    requires |line| >= 4 && DASH in line[4..]
  {
    line[4..][IndexOf(line[4..], DASH) + 1..]
  }

  lemma LegacyBannerHasDash(line: string)
    requires LegacyBanner(line)
    ensures |line| > 4 && line[..3] == "ETO" && IsWhitespace(line[3]) && DASH in line[4..]
  {
    var lead, number, gap, more :| ReadsLegacy(line, lead, number, gap, more);
    var after := lead + (number + Numbered("", gap, more));
    assert line[..3] == "ETO" && line[3..] == after && line[3] == after[0] == lead[0];
    var at := |lead| + |number|;
    assert after[at] == DASH;
    assert line[4..][at - 1] == DASH;
  }

  /**
   * Of the lines that fit the documented pattern, exactly those are recognised in which a space
   * follows ETO, something visible stands before the first dash, and that dash is the one before
   * the order heading.
   */
  lemma LegacyBannerIsRecognisedIff(line: string)
    requires LegacyBanner(line)
    ensures |line| > 4 && DASH in line[4..]
    ensures IsBanner(line) <==>
      line[3] == ' ' && !IsBlank(BeforeDash(line)) && "EXTRA TO ORDER" <= TrimStart(AfterDash(line))
  {
    LegacyBannerHasDash(line);
    assert line[..4] == line[..3] + [line[3]];
    assert BANNER_HEAD == "ETO" + [' '];
    assert BANNER_HEAD <= line <==> line[..4] == BANNER_HEAD;
    assert line[..4][3] == line[3];
  }

  lemma FitsLegacy(lead: string, number: string)
    requires lead != "" && AllWhitespace(lead) && number != ""
    ensures LegacyBanner("ETO" + (lead + (number + Numbered("", "", ""))))
  {
    assert ReadsLegacy("ETO" + (lead + (number + Numbered("", "", ""))), lead, number, "", "");
  }

  lemma FirstDash(lead: char, before: string, after: string)
    requires DASH !in before
    ensures var line := "ETO" + ([lead] + (before + ([DASH] + after)));
      && |line| > 4 && line[3] == lead && DASH in line[4..]
      && BeforeDash(line) == before && AfterDash(line) == after
  {
    var line, rest := "ETO" + ([lead] + (before + ([DASH] + after))), before + ([DASH] + after);
    assert line[4..] == rest;
    SplitAtFirst(before, DASH, after);
    assert rest[|before|] == DASH;
  }

  /** Not recognised although it fits: a tab after ETO. */
  lemma TabIsMissed()
    ensures var line := "ETO" + ("\t" + ("1" + Numbered("", "", ""))); LegacyBanner(line) && !IsBanner(line)
  {
    var line := "ETO" + ("\t" + ("1" + Numbered("", "", "")));
    FitsLegacy("\t", "1");
    LegacyBannerIsRecognisedIff(line);
    assert line[3] == '\t';
  }

  /** Not recognised although it fits: nothing visible before the dash. */
  lemma BlankNumberIsMissed()
    ensures var line := "ETO" + (" " + (" " + Numbered("", "", ""))); LegacyBanner(line) && !IsBanner(line)
  {
    var line := "ETO" + (" " + (" " + Numbered("", "", "")));
    FitsLegacy(" ", " ");
    LegacyBannerIsRecognisedIff(line);
    var after := "" + (BANNER_TAIL + "");
    assert Numbered("", "", "") == [DASH] + after;
    FirstDash(' ', " ", after);
    TrimsToNothing(" ");
  }

  /** Not recognised although it fits: a dash inside the number. */
  lemma DashedNumberIsMissed()
    ensures var line := "ETO" + (" " + (("A" + ([DASH] + "B")) + Numbered("", "", "")));
      LegacyBanner(line) && !IsBanner(line)
  {
    var rest := Numbered("", "", "");
    var number := "A" + ([DASH] + "B");
    var line := "ETO" + (" " + (number + rest));
    FitsLegacy(" ", number);
    LegacyBannerIsRecognisedIff(line);
    Regroup("A", [DASH] + "B", rest);
    Regroup([DASH], "B", rest);
    FirstDash(' ', "A", "B" + rest);
    assert ("B" + rest)[0] == 'B';
  }
}
