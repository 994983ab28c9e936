/** Installing and removing the managed block of a configuration file, as
    src/config_manager.c edits the text. */
module ManagedConfig {
  import opened Texts

  const MANAGED_BEGIN := "# --- BEGIN star_bridge-managed ---\n"
  const MANAGED_END := "# --- END star_bridge-managed ---\n"
  const LEGACY_BEGIN := "# --- BEGIN bridge-managed ---\n"
  const LEGACY_END := "# --- END bridge-managed ---\n"

  predicate IsBegin(m: string) { m == MANAGED_BEGIN || m == LEGACY_BEGIN }
  predicate IsEnd(m: string) { m == MANAGED_END || m == LEGACY_END }

  /** Some begin marker, or some end marker, starts at i. */
  predicate BeginAt(s: string, i: int) { OccursAt(s, MANAGED_BEGIN, i) || OccursAt(s, LEGACY_BEGIN, i) }
  predicate EndAt(s: string, i: int) { OccursAt(s, MANAGED_END, i) || OccursAt(s, LEGACY_END, i) }

  ghost predicate NoBegin(s: string) { forall i :: !BeginAt(s, i) }
  ghost predicate NoEnd(s: string) { forall i :: !EndAt(s, i) }

  lemma MarkersAreLines()
    ensures OneLine(MANAGED_BEGIN) && OneLine(LEGACY_BEGIN) && OneLine(MANAGED_END) && OneLine(LEGACY_END)
  {
  }

  /** A marker has its only '#' in front and says which kind it is at offset 6. */
  lemma MarkerText(m: string)
    requires IsBegin(m) || IsEnd(m)
    ensures |m| > 6 && m[0] == '#' && forall k | 0 < k < |m| :: m[k] != '#'
    ensures m[6] == if IsBegin(m) then 'B' else 'E'
  {
  }

  lemma NotInside(m: string, n: string, i: int)
    requires (IsBegin(m) && IsEnd(n)) || (IsEnd(m) && IsBegin(n))
    ensures !OccursAt(m, n, i)
  {
    MarkerText(m);
    MarkerText(n);
    KindsDiffer(m);
    hide IsBegin, IsEnd;
    if 0 <= i <= |m| - |n| {
      assert m[i..i + |n|][0] == m[i] && m[i..i + |n|][6] == m[i + 6];
    }
  }

  lemma KindsDiffer(m: string)
    ensures !(IsBegin(m) && IsEnd(m))
  {
    if IsBegin(m) {
      assert m[6] == 'B';
    }
  }

  /** A marker has its only '#' in front, so none runs into a text that begins with one. */
  lemma NotAcross(a: string, b: string, m: string, i: int)
    requires (IsBegin(m) || IsEnd(m)) && b != [] && b[0] == '#'
    ensures OccursAt(a + b, m, i) <==> OccursAt(a, m, i) || OccursAt(b, m, i - |a|)
  {
    if i + |m| <= |a| {
      OccursBefore(a, b, m, i);
    } else if |a| <= i {
      OccursAfter(a, b, m, i);
    } else if 0 <= i && i + |m| <= |a + b| {
      MarkerText(m);
      assert (a + b)[i..i + |m|][|a| - i] == b[0];
    }
  }

  lemma NoEndInBegin(b: string)
    requires IsBegin(b)
    ensures NoEnd(b)
  {
    hide OccursAt;
    forall i ensures !EndAt(b, i) {
      NotInside(b, MANAGED_END, i);
      NotInside(b, LEGACY_END, i);
    }
  }

  lemma NoBeginInEnd(e: string)
    requires IsEnd(e)
    ensures NoBegin(e)
  {
    hide OccursAt;
    forall i ensures !BeginAt(e, i) {
      NotInside(e, MANAGED_BEGIN, i);
      NotInside(e, LEGACY_BEGIN, i);
    }
  }

  // ---- remove_all_managed_sections

  function Earlier(a: Option<nat>, b: Option<nat>): Option<nat> {
    if a.None? || (b.Some? && b.value < a.value) then b else a
  }

  function FirstBegin(s: string): (i: Option<nat>)
    ensures i.Some? ==> BeginAt(s, i.value) && forall k | 0 <= k < i.value :: !BeginAt(s, k)
    ensures i.None? ==> NoBegin(s)
  {
    Earlier(IndexOf(s, MANAGED_BEGIN), IndexOf(s, LEGACY_BEGIN))
  }

  function FirstEnd(s: string): (i: Option<nat>)
    ensures i.Some? ==> EndAt(s, i.value) && forall k | 0 <= k < i.value :: !EndAt(s, k)
    ensures i.None? ==> NoEnd(s)
  {
    Earlier(IndexOf(s, MANAGED_END), IndexOf(s, LEGACY_END))
  }

  function EndLength(s: string, e: nat): (n: nat)
    requires EndAt(s, e)
    ensures 0 < n && e + n <= |s| && IsEnd(s[e..e + n])
  {
    if OccursAt(s, MANAGED_END, e) then |MANAGED_END| else |LEGACY_END|
  }

  function SkipNewlines(s: string): (t: string)
    ensures |t| <= |s|
  {
    if s != [] && (s[0] == '\n' || s[0] == '\r') then SkipNewlines(s[1..]) else s
  }

  /** What follows the first section of s, which begins with a begin marker. */
  function AfterSection(s: string): (t: Option<string>)
    ensures t.Some? ==> |t.value| < |s|
  {
    match FirstEnd(s)
    case None => None
    case Some(e) => Some(SkipNewlines(s[e + EndLength(s, e)..]))
  }

  /** The text without its managed sections; a begin without an end after it
      stays, with everything that follows. */
  function Stripped(s: string): (t: string)
    ensures |t| <= |s|
    decreases |s|
  {
    match FirstBegin(s)
    case None => s
    case Some(b) =>
      match AfterSection(s[b..])
      case None => s
      case Some(rest) => s[..b] + Stripped(rest)
  }

  /** One turn of the loop below, seen from what has been copied so far. */
  lemma StripStep(copied: string, s: string)
    ensures match FirstBegin(s)
            case None => Stripped(s) == s
            case Some(b) =>
              b <= |s| &&
              match FirstEnd(s[b..])
              case None => copied + Stripped(s) == copied + s[..b] + s[b..]
              case Some(e) =>
                && EndAt(s[b..], e)
                && var rest := SkipNewlines(s[b..][e + EndLength(s[b..], e)..]);
                   copied + Stripped(s) == copied + s[..b] + Stripped(rest) && |rest| < |s|
  {
    hide FirstBegin, FirstEnd, EndLength, SkipNewlines;
    if FirstBegin(s).Some? {
      assert s[..FirstBegin(s).value] + s[FirstBegin(s).value..] == s;
    }
  }

  lemma StrippedNothing()
    ensures Stripped([]) == []
  {
  }

  method RemoveAllManagedSections(buf: string) returns (result: string)
    ensures result == Stripped(buf)
  {
    hide *;
    StrippedNothing();
    result := [];
    var pos := buf;
    while pos != []
      invariant result + Stripped(pos) == Stripped(buf)
      decreases |pos|
    {
      StripStep(result, pos);
      var begin := FirstBegin(pos);
      if begin.None? { result := result + pos; return; }
      result := result + pos[..begin.value];
      var section := pos[begin.value..];
      var end := FirstEnd(section);
      if end.None? { result := result + section; return; }
      pos := SkipNewlines(section[end.value + EndLength(section, end.value)..]);
    }
  }

  // ---- No begin marker is left

  /** Every begin marker starts a line and has an end marker after it. */
  ghost predicate Tidy(s: string) {
    forall i | BeginAt(s, i) :: StartsLine(s, i) && ClosedAfter(s, i)
  }

  predicate StartsLine(s: string, i: int) { 0 <= i <= |s| && (i == 0 || s[i - 1] == '\n') }
  ghost predicate ClosedAfter(s: string, i: int) { exists e :: i <= e && EndAt(s, e) }

  /** No begin marker has an end marker after it. */
  ghost predicate Unclosed(s: string) {
    forall i, e | BeginAt(s, i) && i <= e :: !EndAt(s, e)
  }

  lemma NoBeginAcross(a: string, b: string)
    requires WholeLines(a) && NoBegin(a) && NoBegin(b)
    ensures NoBegin(a + b)
  {
    hide OccursAt;
    MarkersAreLines();
    forall i ensures !BeginAt(a + b, i) {
      assert !BeginAt(a, i) && !BeginAt(b, i - |a|);
      NoStraddle(a, b, MANAGED_BEGIN, i);
      NoStraddle(a, b, LEGACY_BEGIN, i);
    }
  }

  lemma NoEndAcross(a: string, b: string, i: int)
    requires WholeLines(a) && NoEnd(a)
    ensures EndAt(a + b, i) <==> EndAt(b, i - |a|)
  {
    MarkersAreLines();
    assert !EndAt(a, i);
    NoStraddle(a, b, MANAGED_END, i);
    NoStraddle(a, b, LEGACY_END, i);
  }

  lemma NoEndInOpening(begin: string, inner: string)
    requires IsBegin(begin) && NoEnd(inner) && WholeLines(inner)
    ensures NoEnd(begin + inner) && WholeLines(begin + inner)
  {
    hide OccursAt, EndAt, NoEnd;
    MarkersAreLines();
    NoEndInBegin(begin);
    NoEndInLines(begin, inner);
  }

  lemma NoEndInLines(begin: string, inner: string)
    requires NoEnd(begin) && WholeLines(begin) && NoEnd(inner) && WholeLines(inner)
    ensures NoEnd(begin + inner) && WholeLines(begin + inner)
  {
    hide OccursAt, EndAt;
    forall i ensures !EndAt(begin + inner, i) {
      NoEndAcross(begin, inner, i);
      assert !EndAt(inner, i - |begin|);
    }
  }

  /** The text after a section of a tidy text is tidy again. */
  lemma SuffixAfterEnd(s: string, k: nat)
    requires Tidy(s) && k <= |s|
    ensures Tidy(s[k..])
  {
    hide OccursAt, EndAt, StartsLine, ClosedAfter;
    forall i | BeginAt(s[k..], i) ensures StartsLine(s[k..], i) && ClosedAfter(s[k..], i) {
      if i < 0 { NotBeforeStart(s[k..], i); }
      SuffixMarkers(s, k, i);
      SuffixStarts(s, k, i);
      SuffixCloses(s, k, i);
    }
  }

  lemma SuffixStarts(s: string, k: nat, i: nat)
    requires k <= |s| && StartsLine(s, k + i)
    ensures StartsLine(s[k..], i)
  {
  }

  lemma SuffixCloses(s: string, k: nat, i: nat)
    requires k <= |s| && ClosedAfter(s, k + i)
    ensures ClosedAfter(s[k..], i)
  {
    hide EndAt;
    var e :| k + i <= e && EndAt(s, e);
    SuffixMarkers(s, k, e - k);
    assert EndAt(s[k..], e - k);
  }

  lemma SuffixMarkers(s: string, k: nat, i: int)
    requires k <= |s| && 0 <= i
    ensures BeginAt(s[k..], i) <==> BeginAt(s, k + i)
    ensures EndAt(s[k..], i) <==> EndAt(s, k + i)
  {
    assert s[..k] + s[k..] == s;
    OccursAfter(s[..k], s[k..], MANAGED_BEGIN, k + i);
    OccursAfter(s[..k], s[k..], LEGACY_BEGIN, k + i);
    OccursAfter(s[..k], s[k..], MANAGED_END, k + i);
    OccursAfter(s[..k], s[k..], LEGACY_END, k + i);
  }

  lemma BeginIsInside(s: string, b: nat)
    requires BeginAt(s, b)
    ensures b <= |s|
  {
  }

  lemma NoBeginInPrefix(s: string, b: nat)
    requires b <= |s| && forall k | 0 <= k < b :: !BeginAt(s, k)
    ensures NoBegin(s[..b])
  {
    hide OccursAt;
    forall i ensures !BeginAt(s[..b], i) {
      PrefixMarker(s, b, MANAGED_BEGIN, i);
      PrefixMarker(s, b, LEGACY_BEGIN, i);
      assert 0 <= i < b ==> !BeginAt(s, i);
    }
  }

  lemma PrefixMarker(s: string, b: nat, m: string, i: int)
    requires b <= |s| && m != []
    ensures OccursAt(s[..b], m, i) ==> 0 <= i < b && OccursAt(s, m, i)
  {
    if 0 <= i && i + |m| <= b {
      assert s[..b][i..i + |m|] == s[i..i + |m|];
    }
  }

  lemma OneSection(user: string, tail: string, rest: string)
    requires FirstBegin(user + tail) == Some(|user|) && AfterSection(tail) == Some(rest)
    ensures Stripped(user + tail) == user + Stripped(rest)
    ensures FirstBegin(rest) == None ==> Stripped(rest) == rest
  {
    hide FirstBegin, AfterSection;
    assert (user + tail)[|user|..] == tail && (user + tail)[..|user|] == user;
  }

  lemma TooShort(s: string)
    requires |s| < |LEGACY_BEGIN|
    ensures FirstBegin(s) == None
  {
  }

  // ---- What is kept

  /** A text cut into what the user wrote and the managed sections, each with the
      line breaks after it. */
  datatype Layout =
    | Rest(user: string)
    | Section(user: string, begin: string, inner: string, end: string, gap: string, next: Layout)

  function Render(l: Layout): string {
    match l
    case Rest(user) => user
    case Section(user, begin, inner, end, gap, next) => user + (begin + inner + (end + (gap + Render(next))))
  }

  function UserText(l: Layout): string {
    match l
    case Rest(user) => user
    case Section(user, _, _, _, _, next) => user + UserText(next)
  }

  predicate IsGap(s: string) { forall i | 0 <= i < |s| :: s[i] == '\n' || s[i] == '\r' }

  /** Each section runs from the first begin marker to the first end marker after it,
      and its gap takes all the line breaks; no section is left in the rest. */
  ghost predicate LaidOut(l: Layout) {
    match l
    case Rest(user) => Unclosed(user)
    case Section(user, begin, inner, end, gap, next) =>
      && NoBegin(user) && IsBegin(begin) && IsEnd(end)
      && NoEndBefore(begin + inner + (end + (gap + Render(next))), |begin + inner|)
      && IsGap(gap) && (Render(next) == [] || Render(next)[0] !in "\n\r")
      && LaidOut(next)
  }

  ghost predicate NoEndBefore(s: string, n: nat) { forall k | 0 <= k < n :: !EndAt(s, k) }

  /** Stripping keeps every byte the user wrote and nothing else, whatever other
      begin markers the sections hold inside. */
  lemma {:induction false} StrippedKeepsUserText(l: Layout)
    requires LaidOut(l)
    ensures Stripped(Render(l)) == UserText(l)
  {
    hide FirstBegin, FirstEnd, BeginAt, EndAt, OccursAt, AfterSection;
    match l
    case Rest(user) =>
      UnclosedStays(user);
    case Section(user, begin, inner, end, gap, next) =>
      var tail := begin + inner + (end + (gap + Render(next)));
      FirstBeginIs(user, begin, inner + (end + (gap + Render(next))));
      assert tail == begin + (inner + (end + (gap + Render(next))));
      assert (user + tail)[|user|..] == tail && (user + tail)[..|user|] == user;
      SectionEnds(begin + inner, end, gap, Render(next));
      StrippedKeepsUserText(next);
  }

  lemma UnclosedStays(s: string)
    requires Unclosed(s)
    ensures Stripped(s) == s
  {
    hide FirstBegin, FirstEnd, BeginAt, EndAt, OccursAt, EndLength, SkipNewlines;
    var first := FirstBegin(s);
    if first.Some? {
      var b := first.value;
      BeginIsInside(s, b);
      var end := FirstEnd(s[b..]);
      if end.Some? {
        SuffixMarkers(s, b, end.value);
        assert false;
      }
    }
  }

  /** Every text is laid out in one way or another, so what stripping keeps of it is
      what stands outside its sections. */
  lemma {:induction false} EveryTextIsLaidOut(s: string) returns (l: Layout)
    ensures LaidOut(l) && Render(l) == s && Stripped(s) == UserText(l)
    decreases |s|
  {
    hide FirstBegin, AfterSection, BeginAt, EndAt, OccursAt, LaidOut, Stripped, Unclosed;
    var first := FirstBegin(s);
    if first.None? {
      l := Rest(s);
      NothingOpens(s);
    } else {
      var b := first.value;
      BeginIsInside(s, b);
      SuffixMarkers(s, b, 0);
      if AfterSection(s[b..]).None? {
        l := Rest(s);
        NothingCloses(s, b);
      } else {
        var begin, inner, end, gap, rest := CutSection(s[b..]);
        var next := EveryTextIsLaidOut(rest);
        l := Section(s[..b], begin, inner, end, gap, next);
        LaidOutSection(s, b, l);
      }
    }
    StrippedKeepsUserText(l);
  }

  lemma NothingOpens(s: string)
    requires FirstBegin(s) == None
    ensures LaidOut(Rest(s))
  {
    hide OccursAt, EndAt;
  }

  lemma NothingCloses(s: string, b: nat)
    requires FirstBegin(s) == Some(b) && b <= |s| && AfterSection(s[b..]) == None
    ensures LaidOut(Rest(s))
  {
    hide FirstBegin, FirstEnd, BeginAt, EndAt, OccursAt, EndLength, SkipNewlines;
    forall i, e | BeginAt(s, i) && i <= e ensures !EndAt(s, e) {
      if i < 0 { NotBeforeStart(s, i); }
      assert b <= i;
      SuffixMarkers(s, b, e - b);
      assert !EndAt(s[b..], e - b);
    }
  }

  lemma LaidOutSection(s: string, b: nat, l: Layout)
    requires FirstBegin(s) == Some(b) && l.Section? && LaidOut(l.next) && b <= |s| && l.user == s[..b]
    requires s[b..] == l.begin + l.inner + (l.end + (l.gap + Render(l.next)))
    requires IsBegin(l.begin) && IsEnd(l.end) && IsGap(l.gap) && (Render(l.next) == [] || Render(l.next)[0] !in "\n\r")
    requires NoEndBefore(s[b..], |l.begin + l.inner|)
    ensures LaidOut(l) && Render(l) == s
  {
    hide FirstBegin, NoEndBefore, IsBegin, IsEnd, IsGap, BeginAt;
    NoBeginInPrefix(s, b);
    assert s == s[..b] + s[b..];
  }

  // ---- When a begin marker is left

  /** The first n bytes of m end a, and the others begin b. */
  predicate SplitAt(a: string, b: string, m: string, n: nat) {
    0 < n < |m| && n <= |a| && a[|a| - n..] == m[..n] && m[n..] <= b
  }

  /** A begin marker comes together where a and b meet. */
  ghost predicate Completes(a: string, b: string) {
    exists n: nat :: SplitAt(a, b, MANAGED_BEGIN, n) || SplitAt(a, b, LEGACY_BEGIN, n)
  }

  lemma SplitMarker(a: string, b: string, m: string, n: nat)
    requires 0 < n < |m| && n <= |a|
    ensures SplitAt(a, b, m, n) <==> OccursAt(a + b, m, |a| - n)
  {
    var s, i := a + b, |a| - n;
    if i + |m| <= |s| {
      assert s[i..i + |m|] == a[i..] + b[..|m| - n];
      assert m == m[..n] + m[n..];
      assert s[i..i + |m|][..n] == a[i..] && s[i..i + |m|][n..] == b[..|m| - n];
    }
  }

  /** No marker comes together where a section was taken out, and none stands in what
      follows the last one. */
  ghost predicate SeamFree(l: Layout) {
    match l
    case Rest(user) => NoBegin(user)
    case Section(user, _, _, _, _, next) => !Completes(user, UserText(next)) && SeamFree(next)
  }

  lemma {:induction false} NoBeginIffSeamFree(l: Layout)
    requires LaidOut(l)
    ensures NoBegin(UserText(l)) <==> SeamFree(l)
  {
    hide BeginAt, Completes, NoEndBefore;
    if l.Section? {
      NoBeginIffSeamFree(l.next);
      NoBeginIffNotCompleted(l.user, UserText(l.next));
    }
  }

  /** A marker in a + b stands in a, in b or across the seam. */
  lemma MarkerInBoth(a: string, b: string, m: string, i: int)
    requires m != []
    ensures OccursAt(a + b, m, i) <==>
              OccursAt(a, m, i) || OccursAt(b, m, i - |a|) || (i < |a| && SplitAt(a, b, m, |a| - i))
  {
    hide SplitAt;
    if i + |m| <= |a| {
      OccursBefore(a, b, m, i);
      NoSplit(a, b, m, i);
    } else if |a| <= i {
      OccursAfter(a, b, m, i);
    } else if 0 <= i {
      SplitMarker(a, b, m, |a| - i);
    } else {
      NoSplit(a, b, m, i);
    }
  }

  lemma NoSplit(a: string, b: string, m: string, i: int)
    requires i + |m| <= |a| || i < 0
    ensures i < |a| ==> !SplitAt(a, b, m, |a| - i)
  {
  }

  lemma NoBeginIffNotCompleted(a: string, b: string)
    requires NoBegin(a)
    ensures NoBegin(a + b) <==> !Completes(a, b) && NoBegin(b)
  {
    hide OccursAt, SplitAt;
    forall i ensures BeginAt(a + b, i) <==>
        BeginAt(b, i - |a|)
        || (i < |a| && (SplitAt(a, b, MANAGED_BEGIN, |a| - i) || SplitAt(a, b, LEGACY_BEGIN, |a| - i)))
    {
      assert !BeginAt(a, i);
      MarkerInBoth(a, b, MANAGED_BEGIN, i);
      MarkerInBoth(a, b, LEGACY_BEGIN, i);
    }
    if NoBegin(a + b) {
      forall i ensures !BeginAt(b, i) {
        assert !BeginAt(a + b, i + |a|);
      }
      forall n: nat ensures !SplitAt(a, b, MANAGED_BEGIN, n) && !SplitAt(a, b, LEGACY_BEGIN, n) {
        assert !BeginAt(a + b, |a| - n);
        NoneOfNone(a, b);
      }
    }
  }

  lemma NoneOfNone(a: string, b: string)
    ensures forall m :: !SplitAt(a, b, m, 0)
  {
  }

  /** Of every text, cleaning leaves no begin marker exactly when it is laid out
      without a seam that completes one. */
  lemma StrippedHasNoBeginIff(s: string) returns (l: Layout)
    ensures LaidOut(l) && Render(l) == s
    ensures NoBegin(Stripped(s)) <==> SeamFree(l)
  {
    hide LaidOut, NoBegin, SeamFree, Stripped;
    l := EveryTextIsLaidOut(s);
    NoBeginIffSeamFree(l);
  }

  /** Whole lines complete nothing. */
  lemma LinesCompleteNothing(a: string, b: string)
    requires WholeLines(a)
    ensures !Completes(a, b)
  {
    MarkersAreLines();
    forall n: nat ensures !SplitAt(a, b, MANAGED_BEGIN, n) && !SplitAt(a, b, LEGACY_BEGIN, n) {
      NoLineSplit(a, b, MANAGED_BEGIN, n);
      NoLineSplit(a, b, LEGACY_BEGIN, n);
    }
  }

  lemma NoLineSplit(a: string, b: string, m: string, n: nat)
    requires WholeLines(a) && OneLine(m)
    ensures !SplitAt(a, b, m, n)
  {
    if 0 < n < |m| && n <= |a| { assert a[|a| - n..][n - 1] == a[|a| - 1] && m[..n][n - 1] == m[n - 1]; }
  }

  lemma {:induction false} TidyIsSeamFree(l: Layout)
    requires LaidOut(l) && Tidy(Render(l))
    ensures SeamFree(l)
  {
    hide BeginAt, EndAt, OccursAt, Completes, NoEndBefore, FirstBegin, IsBegin;
    match l
    case Rest(user) =>
    case Section(user, begin, inner, end, gap, next) =>
      var s, section := Render(l), begin + inner + (end + gap);
      FirstBeginIs(user, begin, inner + (end + (gap + Render(next))));
      assert s == user + (begin + (inner + (end + (gap + Render(next)))));
      assert BeginAt(s, |user|);
      assert user != [] ==> s[|user| - 1] == user[|user| - 1];
      LinesCompleteNothing(user, UserText(next));
      assert s == user + section + Render(next);
      assert s[|user + section|..] == Render(next);
      SuffixAfterEnd(s, |user + section|);
      TidyIsSeamFree(next);
  }

  /** So none is left of a text whose begin markers start lines and are closed. */
  lemma StrippedHasNoBegin(s: string)
    requires Tidy(s)
    ensures NoBegin(Stripped(s))
  {
    hide Tidy, LaidOut, NoBegin, SeamFree, Stripped;
    var l := StrippedHasNoBeginIff(s);
    TidyIsSeamFree(l);
  }

  /** A begin marker cut in two by any closed section comes together again. */
  lemma SeamCanMakeABegin(m: string, n: nat, begin: string, inner: string, end: string)
    requires IsBegin(m) && 0 < n < |m| - 1 && IsBegin(begin) && IsEnd(end) && NoEnd(inner) && WholeLines(inner)
    ensures Stripped(m[..n] + (begin + inner + (end + m[n..]))) == m && !NoBegin(m)
  {
    hide EndAt, OccursAt, FirstBegin, AfterSection, Stripped, IsBegin, IsEnd;
    var user, rest := m[..n], m[n..];
    Halves(m, n);
    FirstBeginIs(user, begin, inner + (end + rest));
    NoEndInOpening(begin, inner);
    WholeSectionEnds(begin + inner, end, rest);
    assert begin + inner + (end + rest) == begin + (inner + (end + rest));
    OneSection(user, begin + inner + (end + rest), rest);
    FirstBeginIsNone(rest);
    assert user + rest == m;
  }

  /** Neither half of a begin marker holds one. */
  lemma Halves(m: string, n: nat)
    requires IsBegin(m) && 0 < n < |m| - 1
    ensures NoBegin(m[..n]) && NoBegin(m[n..]) && m[n..] != [] && m[n..][0] !in "\n\r" && !NoBegin(m)
  {
    hide IsBegin, BeginAt, OccursAt;
    BothBegins();
    assert m[0..n] == m[..n] && m[n..|m|] == m[n..];
    forall i ensures !BeginAt(m[..n], i) { NotInHalf(m, 0, n, i); }
    forall i ensures !BeginAt(m[n..], i) { NotInHalf(m, n, |m|, i); }
    StartsWith(m, []);
    assert m + [] == m;
    IsBeginAt(m, m, 0);
    OneBreak(m);
  }

  lemma OneBreak(m: string)
    requires IsBegin(m)
    ensures m != [] && forall k | 0 <= k < |m| - 1 :: m[k] !in "\n\r"
  {
  }

  lemma NotInHalf(m: string, j: nat, k: nat, i: int)
    requires IsBegin(m) && j <= k <= |m| && k - j < |m|
    ensures !BeginAt(m[j..k], i)
  {
    hide IsBegin;
    BothBegins();
    NotThatMarker(m, j, k, MANAGED_BEGIN, i);
    NotThatMarker(m, j, k, LEGACY_BEGIN, i);
  }

  lemma NotThatMarker(m: string, j: nat, k: nat, t: string, i: int)
    requires IsBegin(m) && IsBegin(t) && j <= k <= |m| && k - j < |m|
    ensures !OccursAt(m[j..k], t, i)
  {
    hide IsBegin;
    if OccursAt(m[j..k], t, i) {
      SliceOfSlice(m, j, k, j + i, j + i + |t|);
      OnlyItself(m, t, j + i);
    }
  }

  /** A begin marker holds no other. */
  lemma OnlyItself(m: string, t: string, i: int)
    requires IsBegin(m) && IsBegin(t) && OccursAt(m, t, i)
    ensures i == 0 && m == t
  {
    MarkerText(m);
    MarkerText(t);
    SliceAt(m, t, i, 0);
    if |t| < |m| { NotTheShorter(m, t); }
  }

  lemma SliceAt(s: string, t: string, i: int, k: nat)
    requires OccursAt(s, t, i) && k < |t|
    ensures s[i + k] == t[k]
  {
    assert s[i..i + |t|][k] == s[i + k];
  }

  lemma NotTheShorter(m: string, t: string)
    requires IsBegin(m) && IsBegin(t) && |t| < |m|
    ensures !OccursAt(m, t, 0)
  {
    assert m[0..|t|][12] == m[12];
  }

  lemma CutSection(s: string) returns (begin: string, inner: string, end: string, gap: string, rest: string)
    requires BeginAt(s, 0) && AfterSection(s).Some?
    ensures s == begin + inner + (end + (gap + rest)) && s == begin + inner + (end + gap) + rest && |rest| < |s|
    ensures IsBegin(begin) && IsEnd(end) && IsGap(gap) && (rest == [] || rest[0] !in "\n\r")
    ensures NoEndBefore(s, |begin + inner|)
  {
    hide FirstEnd, EndLength, SkipNewlines, BeginAt, EndAt, OccursAt, IsBegin, IsEnd, IsGap, NoEnd, NoBegin;
    var e := FirstEnd(s).value;
    var n := EndLength(s, e);
    begin := BeginOf(s, e);
    inner, end := s[|begin|..e], s[e..e + n];
    rest := SkipNewlines(s[e + n..]);
    gap := GapOf(s[e + n..]);
    InFourParts(s, begin, e, n);
    assert begin + inner + (end + gap) + rest == begin + inner + (end + (gap + rest));
  }

  lemma InFourParts(s: string, begin: string, e: nat, n: nat)
    requires begin <= s && |begin| <= e && e + n <= |s|
    ensures s == begin + s[|begin|..e] + (s[e..e + n] + s[e + n..])
  {
    assert begin + s[|begin|..e] == s[..e];
    assert s[e..e + n] + s[e + n..] == s[e..];
  }

  lemma GapOf(s: string) returns (gap: string)
    ensures s == gap + SkipNewlines(s) && IsGap(gap)
    ensures SkipNewlines(s) == [] || SkipNewlines(s)[0] !in "\n\r"
  {
    gap := [];
    if s != [] && (s[0] == '\n' || s[0] == '\r') {
      gap := GapOf(s[1..]);
      gap := [s[0]] + gap;
      assert s == [s[0]] + s[1..];
    }
  }

  /** A begin marker in front of an end marker ends before it. */
  lemma BeginOf(s: string, e: nat) returns (begin: string)
    requires BeginAt(s, 0) && EndAt(s, e)
    ensures IsBegin(begin) && begin <= s && |begin| <= e
  {
    begin := if OccursAt(s, MANAGED_BEGIN, 0) then MANAGED_BEGIN else LEGACY_BEGIN;
    var end := if OccursAt(s, MANAGED_END, e) then MANAGED_END else LEGACY_END;
    assert begin == s[..|begin|] && end == s[e..e + |end|];
    MarkersAreApart(s, begin, end, e);
  }

  lemma MarkersAreApart(s: string, begin: string, end: string, e: nat)
    requires IsBegin(begin) && IsEnd(end) && begin <= s && OccursAt(s, end, e)
    ensures |begin| <= e
  {
    MarkerText(begin);
    MarkerText(end);
    KindsDiffer(begin);
    KindsDiffer(end);
    hide IsBegin, IsEnd;
    assert s[e..e + |end|][0] == s[e] && s[e..e + |end|][6] == s[e + 6];
    assert forall k | 0 <= k < |begin| :: s[k] == begin[k];
  }

  lemma FirstBeginIsNone(s: string)
    requires NoBegin(s)
    ensures FirstBegin(s) == None
  {
  }

  lemma FirstBeginIs(user: string, begin: string, rest: string)
    requires NoBegin(user) && IsBegin(begin)
    ensures FirstBegin(user + (begin + rest)) == Some(|user|)
  {
    hide OccursAt, FirstBegin, IsBegin;
    var s := user + (begin + rest);
    MarkerText(begin);
    BothBegins();
    forall k | 0 <= k < |user| ensures !BeginAt(s, k) {
      assert !BeginAt(user, k);
      NotAcross(user, begin + rest, MANAGED_BEGIN, k);
      NotAcross(user, begin + rest, LEGACY_BEGIN, k);
      NotBeforeStart(begin + rest, k - |user|);
    }
    StartsWith(begin, rest);
    NotAcross(user, begin + rest, begin, |user|);
    IsBeginAt(s, begin, |user|);
    FirstBeginUnique(s, |user|);
  }

  lemma BothBegins()
    ensures IsBegin(MANAGED_BEGIN) && IsBegin(LEGACY_BEGIN)
  {
  }

  lemma IsBeginAt(s: string, begin: string, i: nat)
    requires IsBegin(begin) && OccursAt(s, begin, i)
    ensures BeginAt(s, i)
  {
    hide OccursAt;
  }

  lemma FirstBeginUnique(s: string, i: nat)
    requires BeginAt(s, i) && forall k | 0 <= k < i :: !BeginAt(s, k)
    ensures FirstBegin(s) == Some(i)
  {
  }

  lemma FirstEndUnique(s: string, i: nat)
    requires EndAt(s, i) && forall k | 0 <= k < i :: !EndAt(s, k)
    ensures FirstEnd(s) == Some(i)
  {
  }

  lemma NotBeforeStart(s: string, i: int)
    requires i < 0
    ensures !BeginAt(s, i) && !EndAt(s, i)
    ensures forall t :: !OccursAt(s, t, i)
  {
  }

  lemma StartsWith(t: string, rest: string)
    ensures OccursAt(t + rest, t, 0)
  {
  }

  lemma SectionEnds(opening: string, end: string, gap: string, rest: string)
    requires NoEndBefore(opening + (end + (gap + rest)), |opening|)
    requires IsEnd(end) && IsGap(gap) && (rest == [] || rest[0] !in "\n\r")
    ensures AfterSection(opening + (end + (gap + rest))) == Some(rest)
  {
    hide OccursAt, FirstEnd, EndLength;
    var s := opening + (end + (gap + rest));
    StartsWith(end, gap + rest);
    OccursAfter(opening, end + (gap + rest), end, |opening|);
    assert EndAt(s, |opening|);
    FirstEndUnique(s, |opening|);
    EndLengthIs(opening, end, gap + rest);
    assert s[|opening| + |end|..] == gap + rest;
    SkipGap(gap, rest);
  }

  lemma WholeSectionEnds(opening: string, end: string, rest: string)
    requires WholeLines(opening) && NoEnd(opening) && IsEnd(end) && (rest == [] || rest[0] !in "\n\r")
    ensures AfterSection(opening + (end + rest)) == Some(rest)
  {
    hide OccursAt, AfterSection, IsEnd;
    var s := opening + (end + rest);
    forall k | 0 <= k < |opening| ensures !EndAt(s, k) {
      NoEndAcross(opening, end + rest, k);
      NotBeforeStart(end + rest, k - |opening|);
    }
    assert [] + rest == rest;
    SectionEnds(opening, end, [], rest);
  }

  lemma EndLengthIs(opening: string, end: string, rest: string)
    requires IsEnd(end) && EndAt(opening + (end + rest), |opening|)
    ensures EndLength(opening + (end + rest), |opening|) == |end|
  {
    var s := opening + (end + rest);
    OccursAfter(opening, end + rest, MANAGED_END, |opening|);
    if |MANAGED_END| <= |end + rest| {
      assert (end + rest)[..|MANAGED_END|][10] == end[10];
    }
    if end == MANAGED_END {
      assert (end + rest)[..|MANAGED_END|] == end;
    }
  }

  lemma {:induction false} SkipGap(gap: string, rest: string)
    requires IsGap(gap) && (rest == [] || rest[0] !in "\n\r")
    ensures SkipNewlines(gap + rest) == rest
  {
    if gap == [] {
      assert gap + rest == rest;
    } else {
      assert (gap + rest)[1..] == gap[1..] + rest;
      SkipGap(gap[1..], rest);
    }
  }
}
