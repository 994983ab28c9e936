/** Installing and disabling the managed block: install_managed_config and
    disable_managed_config of src/config_manager.c as edits of the file's text. */
module ConfigEdits {
  import opened Texts
  import opened ManagedConfig

  const MODEL_HEADER := "[model \"star-bridge-ds4\"]"
  const OLD_MODEL_HEADER := "[model \"ds4-unix-bridge\"]"
  const PROVIDER_HEADER := "[provider \"star-bridge-local\"]"
  const OLD_PROVIDER_HEADER := "[provider \"dwarfstar-bridge\"]"

  /** The generated block: whole lines between the two markers, none of them a
      marker itself. */
  ghost predicate OwnBlock(block: string, inner: string) {
    && block == MANAGED_BEGIN + inner + MANAGED_END
    && WholeLines(inner) && NoBegin(inner) && NoEnd(inner)
  }

  /** read_file: an empty file reads like a missing one. */
  function ReadFile(file: Option<string>): Option<string> {
    if file == Some([]) then None else file
  }

  function Ended(s: string): (t: string)
    ensures WholeLines(t) && s <= t && (t == s <==> WholeLines(s))
  {
    if WholeLines(s) then s else s + ['\n']
  }

  function Installed(file: Option<string>, block: string): string {
    match ReadFile(file)
    case None => block
    case Some(x) => Ended(Stripped(x)) + block
  }

  method Install(file: Option<string>, block: string) returns (written: string)
    ensures written == Installed(file, block)
  {
    hide Stripped;
    var existing := ReadFile(file);
    if existing.None? { return block; }
    written := RemoveAllManagedSections(existing.value);
    if written != [] && written[|written| - 1] != '\n' { written := written + ['\n']; }
    written := written + block;
  }

  // ---- extract_displaced_keys

  function LineStartOf(s: string, at: nat): (i: nat)
    requires at <= |s|
    ensures i <= at && (i == 0 || s[i - 1] == '\n') && '\n' !in s[i..at]
  {
    if at == 0 || s[at - 1] == '\n' then at else LineStartOf(s, at - 1)
  }

  method LineStart(s: string, at: nat) returns (i: nat)
    requires at <= |s|
    ensures i == LineStartOf(s, at)
  {
    i := at;
    while i > 0 && s[i - 1] != '\n'
      invariant i <= at && LineStartOf(s, i) == LineStartOf(s, at)
    {
      i := i - 1;
    }
  }

  /** Where the table after the one whose header ends at `from` starts. */
  function NextTable(s: string, from: nat): (i: nat)
    requires from <= |s|
    ensures from <= i <= |s| && (i == |s| || (s[i] == '[' && i > 0 && s[i - 1] == '\n'))
  {
    match IndexFrom(s, "\n[", from)
    case None => |s|
    case Some(i) => assert s[i..i + 2][0] == s[i] && s[i..i + 2][1] == s[i + 1]; i + 1
  }

  /** That is, at the first '[' behind a newline, both at `from` or later. */
  lemma NextTableIs(s: string, from: nat)
    requires from <= |s|
    ensures var i := NextTable(s, from);
            && (i < |s| ==> from < i && s[i - 1] == '\n' && s[i] == '[')
            && forall k | from < k < i :: !(s[k - 1] == '\n' && s[k] == '[')
  {
    var found := IndexFrom(s, "\n[", from);
    forall k | from < k < NextTable(s, from) ensures !(s[k - 1] == '\n' && s[k] == '[') {
      assert !OccursAt(s, "\n[", k - 1);
      assert s[k - 1..k + 1] == [s[k - 1], s[k]];
    }
  }

  function SectionWith(s: string, header: string, at: nat): string
    requires OccursAt(s, header, at)
  {
    s[LineStartOf(s, at)..NextTable(s, at + |header|)]
  }

  function DisplacedSection(s: string, header: string, legacy: string): string {
    match IndexOf(s, header)
    case Some(at) => SectionWith(s, header, at)
    case None =>
      match IndexOf(s, legacy)
      case Some(at) => SectionWith(s, legacy, at)
      case None => []
  }

  function Displaced(s: string): string {
    DisplacedSection(s, MODEL_HEADER, OLD_MODEL_HEADER) + DisplacedSection(s, PROVIDER_HEADER, OLD_PROVIDER_HEADER)
  }

  method ExtractSection(s: string, header: string, legacy: string) returns (section: string)
    ensures section == DisplacedSection(s, header, legacy)
  {
    hide OccursAt, IndexOf, LineStartOf, NextTable;
    var found := header;
    var at := IndexOf(s, found);
    if at.None? {
      found := legacy;
      at := IndexOf(s, found);
    }
    if at.None? { return []; }
    var start := LineStart(s, at.value);
    section := s[start..NextTable(s, at.value + |found|)];
  }

  method ExtractDisplaced(s: string) returns (result: string)
    ensures result == Displaced(s)
  {
    result := ExtractSection(s, MODEL_HEADER, OLD_MODEL_HEADER);
    var provider := ExtractSection(s, PROVIDER_HEADER, OLD_PROVIDER_HEADER);
    result := result + provider;
  }

  ghost predicate NoHeader(s: string) {
    forall i :: !OccursAt(s, MODEL_HEADER, i) && !OccursAt(s, OLD_MODEL_HEADER, i)
             && !OccursAt(s, PROVIDER_HEADER, i) && !OccursAt(s, OLD_PROVIDER_HEADER, i)
  }

  /** A displaced section is copied from the start of its line, and holds its header. */
  lemma SectionHasHeader(s: string, header: string, at: nat)
    requires OccursAt(s, header, at) && header != []
    ensures var k := at - LineStartOf(s, at);
            OccursAt(SectionWith(s, header, at), header, k) && header[0] in SectionWith(s, header, at)
  {
    var i, j := LineStartOf(s, at), NextTable(s, at + |header|);
    var section := s[i..j];
    SliceOfSlice(s, i, j, at, at + |header|);
    assert s[at..at + |header|][0] == s[at] == section[at - i];
  }

  lemma DisplacedSectionIsEmpty(s: string, header: string, legacy: string)
    requires header != [] && legacy != [] && header[0] == '[' && legacy[0] == '['
    ensures DisplacedSection(s, header, legacy) == []
            <==> forall i :: !OccursAt(s, header, i) && !OccursAt(s, legacy, i)
    ensures DisplacedSection(s, header, legacy) != [] ==> '[' in DisplacedSection(s, header, legacy)
  {
    hide OccursAt, SectionWith;
    var i, j := IndexOf(s, header), IndexOf(s, legacy);
    if i.Some? {
      SectionHasHeader(s, header, i.value);
    } else if j.Some? {
      SectionHasHeader(s, legacy, j.value);
    }
  }

  lemma NothingDisplaced(s: string)
    ensures Displaced(s) == [] <==> NoHeader(s)
    ensures Displaced(s) != [] ==> '[' in Displaced(s)
  {
    hide DisplacedSection, OccursAt;
    DisplacedSectionIsEmpty(s, MODEL_HEADER, OLD_MODEL_HEADER);
    DisplacedSectionIsEmpty(s, PROVIDER_HEADER, OLD_PROVIDER_HEADER);
  }

  // ---- disable_managed_config

  function Kept(x: string, at: nat): string
    requires OccursAt(x, MANAGED_BEGIN, at)
  {
    var displaced := Displaced(x[..at]);
    if displaced == [] then Stripped(x) else Ended(Stripped(x)) + displaced
  }

  /** Whether it changed anything, and the file afterwards. */
  function Disabled(file: Option<string>): (bool, Option<string>) {
    match ReadFile(file)
    case None => (false, file)
    case Some(x) =>
      match IndexOf(x, MANAGED_BEGIN)
      case None => (false, file)
      case Some(at) => (true, if Kept(x, at) == [] then None else Some(Kept(x, at)))
  }

  method Disable(file: Option<string>) returns (ok: bool, after: Option<string>)
    ensures (ok, after) == Disabled(file)
  {
    hide Stripped, Displaced, IndexOf, OccursAt;
    var existing := ReadFile(file);
    if existing.None? { return false, file; }
    var at := IndexOf(existing.value, MANAGED_BEGIN);
    if at.None? { return false, file; }
    var cleaned := RemoveAllManagedSections(existing.value);
    var displaced := ExtractDisplaced(existing.value[..at.value]);
    var content := cleaned;
    if displaced != [] {
      if cleaned != [] && cleaned[|cleaned| - 1] != '\n' { content := content + ['\n']; }
      content := content + displaced;
    }
    return true, if content == [] then None else Some(content);
  }

  // ---- Install then strip

  predicate EndsWith(s: string, t: string) { OccursAt(s, t, |s| - |t|) }

  /** The text ends in a begin marker that only lacks its newline. */
  predicate EndsInOpenMarker(s: string) {
    EndsWith(s + ['\n'], MANAGED_BEGIN) || EndsWith(s + ['\n'], LEGACY_BEGIN)
  }

  lemma BeginInEnded(s: string, i: int)
    requires NoBegin(s) && BeginAt(Ended(s), i)
    ensures !WholeLines(s) && 0 <= i < |s| && IsBegin(Ended(s)[i..])
  {
    hide OccursAt;
    assert !BeginAt(s, i);
    InEnded(s, MANAGED_BEGIN, i);
    InEnded(s, LEGACY_BEGIN, i);
  }

  lemma InEnded(s: string, m: string, i: int)
    requires |m| > 1
    ensures OccursAt(Ended(s), m, i) && !OccursAt(s, m, i) ==> !WholeLines(s) && 0 <= i < |s| && Ended(s)[i..] == m
  {
    if !WholeLines(s) && i + |m| <= |s| {
      OccursBefore(s, ['\n'], m, i);
    }
  }

  lemma WhenEndedHasBegin(s: string)
    requires NoBegin(s)
    ensures NoBegin(Ended(s)) <==> !EndsInOpenMarker(s)
  {
    hide OccursAt;
    MarkersAreLines();
    if !NoBegin(Ended(s)) {
      var i :| BeginAt(Ended(s), i);
      BeginInEnded(s, i);
      EndsWithIt(Ended(s), i, Ended(s)[i..]);
    } else {
      assert !BeginAt(Ended(s), |s| + 1 - |MANAGED_BEGIN|);
      assert !BeginAt(Ended(s), |s| + 1 - |LEGACY_BEGIN|);
      if WholeLines(s) {
        TwoNewlines(s, MANAGED_BEGIN);
        TwoNewlines(s, LEGACY_BEGIN);
      }
    }
  }

  lemma EndsWithIt(s: string, i: nat, m: string)
    requires i <= |s| && s[i..] == m
    ensures EndsWith(s, m)
  {
  }

  lemma TwoNewlines(s: string, m: string)
    requires OneLine(m) && |m| > 1 && WholeLines(s)
    ensures !EndsWith(s + ['\n'], m)
  {
    var t := s + ['\n'];
    if |m| <= |t| {
      assert t[|t| - |m|..|t|][|m| - 2] == s[|s| - 1] == '\n';
    }
  }

  lemma StripOwnSection(user: string, opening: string, end: string)
    requires FirstBegin(user + (opening + end)) == Some(|user|)
    requires NoEnd(opening) && WholeLines(opening) && IsEnd(end)
    ensures Stripped(user + (opening + end)) == user
  {
    hide FirstBegin, AfterSection, OccursAt, BeginAt, EndAt, Stripped, IsEnd;
    assert end + [] == end;
    WholeSectionEnds(opening, end, []);
    OneSection(user, opening + end, []);
    TooShort([]);
    assert user + [] == user;
  }

  /** Stripping right after installing gives back the text before the block. */
  lemma StripInstalled(u: string, block: string, inner: string)
    requires OwnBlock(block, inner) && WholeLines(u) && NoBegin(u)
    ensures Stripped(u + block) == u
    ensures forall i :: BeginAt(u + block, i) <==> i == |u|
    ensures IndexOf(u + block, MANAGED_BEGIN) == Some(|u|)
  {
    hide FirstBegin, OccursAt, BeginAt, EndAt, Stripped;
    assert block == MANAGED_BEGIN + (inner + MANAGED_END);
    FirstBeginIs(u, MANAGED_BEGIN, inner + MANAGED_END);
    NoEndInOpening(MANAGED_BEGIN, inner);
    StripOwnSection(u, MANAGED_BEGIN + inner, MANAGED_END);
    OnlyBegin(u, block, inner);
  }

  lemma OnlyBegin(u: string, block: string, inner: string)
    requires OwnBlock(block, inner) && WholeLines(u) && NoBegin(u)
    ensures forall i :: BeginAt(u + block, i) <==> i == |u|
    ensures IndexOf(u + block, MANAGED_BEGIN) == Some(|u|)
  {
    hide OccursAt, OwnBlock;
    MarkersAreLines();
    forall i ensures BeginAt(u + block, i) <==> i == |u| {
      assert !BeginAt(u, i);
      NoStraddle(u, block, MANAGED_BEGIN, i);
      NoStraddle(u, block, LEGACY_BEGIN, i);
      BeginInBlock(block, inner, i - |u|);
    }
    BeginInBlock(block, inner, 0);
    NoStraddle(u, block, MANAGED_BEGIN, |u|);
    forall i | 0 <= i < |u| ensures !OccursAt(u + block, MANAGED_BEGIN, i) {
      assert !BeginAt(u + block, i);
    }
    IndexIs(u + block, MANAGED_BEGIN, |u|);
  }

  lemma BeginInBlock(block: string, inner: string, i: int)
    requires OwnBlock(block, inner)
    ensures BeginAt(block, i) <==> i == 0
    ensures OccursAt(block, MANAGED_BEGIN, 0)
  {
    hide OccursAt, NoBegin, BeginAt, WholeLines;
    OwnMarkers();
    NoBeginInEnd(MANAGED_END);
    NoBeginAcross(inner, MANAGED_END);
    assert block == MANAGED_BEGIN + (inner + MANAGED_END);
    BeginInFront(inner + MANAGED_END, i);
  }

  lemma BeginInFront(tail: string, i: int)
    requires NoBegin(tail)
    ensures BeginAt(MANAGED_BEGIN + tail, i) <==> i == 0
    ensures OccursAt(MANAGED_BEGIN + tail, MANAGED_BEGIN, 0)
  {
    hide OccursAt;
    MarkersAreLines();
    StartsWith(MANAGED_BEGIN, tail);
    assert !BeginAt(tail, i - |MANAGED_BEGIN|);
    NoStraddle(MANAGED_BEGIN, tail, MANAGED_BEGIN, i);
    NoStraddle(MANAGED_BEGIN, tail, LEGACY_BEGIN, i);
    BeginInBegin(i);
  }

  lemma BeginInBegin(i: int)
    ensures BeginAt(MANAGED_BEGIN, i) <==> i == 0
  {
    hide OccursAt;
    BothBegins();
    StartsWith(MANAGED_BEGIN, []);
    assert MANAGED_BEGIN + [] == MANAGED_BEGIN;
    if OccursAt(MANAGED_BEGIN, MANAGED_BEGIN, i) { OnlyItself(MANAGED_BEGIN, MANAGED_BEGIN, i); }
    if OccursAt(MANAGED_BEGIN, LEGACY_BEGIN, i) { OnlyItself(MANAGED_BEGIN, LEGACY_BEGIN, i); }
  }

  // ---- Installing twice

  /** A begin marker without an end takes the block with it. */
  lemma StripOpenBegin(u: string, block: string, inner: string, b: nat)
    requires OwnBlock(block, inner) && WholeLines(u) && FirstBegin(u + block) == Some(b) && b < |u| && NoEnd(u[b..])
    ensures Stripped(u + block) == u[..b]
  {
    hide FirstBegin, OccursAt, BeginAt, EndAt, Stripped, IsBegin, IsEnd, NoEnd, NoBegin;
    OwnMarkers();
    NoEndInOpening(MANAGED_BEGIN, inner);
    NoEndInLines(u[b..], MANAGED_BEGIN + inner);
    Regroup(u, b, MANAGED_BEGIN + inner, MANAGED_END);
    StripOwnSection(u[..b], u[b..] + (MANAGED_BEGIN + inner), MANAGED_END);
  }

  /** A text that ends in an open marker loses it at the next installation. */
  lemma StripOpenMarker(u: string, block: string, inner: string, b: nat)
    requires OwnBlock(block, inner) && WholeLines(u) && FirstBegin(u + block) == Some(b) && b < |u| && IsBegin(u[b..])
    ensures Stripped(u + block) == u[..b]
  {
    hide FirstBegin, Stripped, IsBegin, OwnBlock, NoEnd;
    NoEndInBegin(u[b..]);
    StripOpenBegin(u, block, inner, b);
  }

  lemma Regroup(u: string, b: nat, opening: string, end: string)
    requires b <= |u|
    ensures u + (opening + end) == u[..b] + (u[b..] + opening + end)
  {
    assert u == u[..b] + u[b..];
  }

  lemma OwnMarkers()
    ensures IsBegin(MANAGED_BEGIN) && IsEnd(MANAGED_END)
  {
  }

  lemma FirstOpenMarker(s: string, block: string, inner: string) returns (b: nat)
    requires OwnBlock(block, inner) && NoBegin(s) && EndsInOpenMarker(s)
    ensures !WholeLines(s) && b < |s| && FirstBegin(Ended(s) + block) == Some(b) && IsBegin(Ended(s)[b..])
  {
    hide FirstBegin, OccursAt;
    var u := Ended(s);
    WhenEndedHasBegin(s);
    var i :| BeginAt(u, i);
    MarkersAreLines();
    NoStraddle(u, block, MANAGED_BEGIN, i);
    NoStraddle(u, block, LEGACY_BEGIN, i);
    assert BeginAt(u + block, i);
    BeginInEnded(s, i);
    b := FirstBegin(u + block).value;
    NoStraddle(u, block, MANAGED_BEGIN, b);
    NoStraddle(u, block, LEGACY_BEGIN, b);
    NotBeforeStart(block, b - |u|);
    BeginInEnded(s, b);
  }

  /** Markers in front of the block are those of the text there. */
  lemma FirstBeginInFront(v: string, block: string) returns (b: nat)
    requires WholeLines(v) && !NoBegin(v)
    ensures FirstBegin(v + block) == Some(b) && b + 2 <= |v| && BeginAt(v[b..], 0)
  {
    hide OccursAt, FirstBegin, WholeLines;
    MarkersAreLines();
    var i :| BeginAt(v, i);
    var first := FirstBegin(v);
    b := first.value;
    BeginHasRoom(v, b);
    SuffixMarkers(v, b, 0);
    forall k | 0 <= k <= b ensures BeginAt(v + block, k) <==> BeginAt(v, k) {
      NoStraddle(v, block, MANAGED_BEGIN, k);
      NoStraddle(v, block, LEGACY_BEGIN, k);
      NotBeforeStart(block, k - |v|);
    }
    FirstBeginUnique(v + block, b);
  }

  lemma BeginHasRoom(s: string, b: nat)
    requires BeginAt(s, b)
    ensures b + 2 <= |s|
  {
  }

  /** A section of the text in front of the block ends where it does without it. */
  lemma SectionInFront(t: string, block: string) returns (rest: string)
    requires WholeLines(t) && BeginAt(t, 0) && FirstEnd(t).Some? && block != [] && block[0] == '#'
    ensures AfterSection(t + block) == Some(rest + block) && WholeLines(rest) && |rest| + 2 <= |t|
  {
    hide OccursAt, AfterSection, FirstEnd, BeginAt, IsBegin, IsEnd, IsGap;
    HasSection(t);
    var begin, inner, end, gap;
    begin, inner, end, gap, rest := CutSection(t);
    var opening := begin + inner;
    assert t + block == opening + (end + (gap + (rest + block)));
    assert (rest + block)[0] == if rest == [] then '#' else rest[0];
    MarkersAreLines();
    MarkerText(begin);
    forall k | 0 <= k < |opening| ensures !EndAt(t + block, k) {
      assert !EndAt(t, k);
      NoStraddle(t, block, MANAGED_END, k);
      NoStraddle(t, block, LEGACY_END, k);
      NotBeforeStart(block, k - |t|);
    }
    SectionEnds(opening, end, gap, rest + block);
    assert rest != [] ==> rest[|rest| - 1] == t[|t| - 1];
  }

  lemma HasSection(t: string)
    requires FirstEnd(t).Some?
    ensures AfterSection(t).Some?
  {
    hide FirstEnd, EndLength, SkipNewlines;
  }

  /** Cleaning a text of whole lines with the block behind it gives the text back, or
      takes at least a line off it if it holds a begin marker. */
  lemma {:induction false} StripInFront(v: string, block: string, inner: string)
    requires WholeLines(v) && OwnBlock(block, inner)
    ensures NoBegin(v) ==> Stripped(v + block) == v
    ensures !NoBegin(v) ==> |Stripped(v + block)| + 2 <= |v|
    decreases |v|
  {
    hide FirstBegin, FirstEnd, OccursAt, BeginAt, EndAt, Stripped, NoBegin, NoEnd, AfterSection, OwnBlock;
    if NoBegin(v) {
      StripInstalled(v, block, inner);
    } else {
      var b := FirstBeginInFront(v, block);
      var t := v[b..];
      assert v[..b] + (t + block) == v + block;
      assert WholeLines(t);
      BlockStart(block, inner);
      if FirstEnd(t).None? {
        StripOpenBegin(v, block, inner, b);
      } else {
        var rest := SectionInFront(t, block);
        StripInFront(rest, block, inner);
        OneSection(v[..b], t + block, rest + block);
      }
    }
  }

  lemma BlockStart(block: string, inner: string)
    requires OwnBlock(block, inner)
    ensures block != [] && block[0] == '#'
  {
  }

  /** Installing twice writes the same file as installing once, whatever the file was,
      exactly when no begin marker is left in the text in front of the block; then the
      block's is the only one. */
  lemma InstallTwice(x: string, block: string, inner: string)
    requires OwnBlock(block, inner)
    ensures var once := Installed(Some(x), block);
            && (Installed(Some(once), block) == once <==> NoBegin(Ended(Stripped(x))))
            && (NoBegin(Ended(Stripped(x))) ==> forall i :: BeginAt(once, i) <==> i == |once| - |block|)
  {
    hide FirstBegin, OccursAt, BeginAt, Stripped, NoBegin, OwnBlock;
    var u := Ended(Stripped(x));
    InstalledText(x, block);
    InstalledText(u + block, block);
    StripInFront(u, block, inner);
    if NoBegin(u) {
      StripInstalled(u, block, inner);
    } else {
      assert |Ended(Stripped(u + block))| <= |Stripped(u + block)| + 1;
    }
  }

  /** In terms of the text: a marker can be left at a seam, in a section that is never
      closed, or because it only lacked its newline. */
  lemma InstallTwiceIff(l: Layout, block: string, inner: string)
    requires LaidOut(l) && OwnBlock(block, inner)
    ensures var once := Installed(Some(Render(l)), block);
            Installed(Some(once), block) == once <==> SeamFree(l) && !EndsInOpenMarker(UserText(l))
  {
    hide *;
    StrippedKeepsUserText(l);
    NoBeginIffSeamFree(l);
    InstallTwice(Render(l), block, inner);
    BeginStays(UserText(l));
    if NoBegin(UserText(l)) { WhenEndedHasBegin(UserText(l)); }
  }

  lemma BeginStays(s: string)
    ensures NoBegin(Ended(s)) ==> NoBegin(s)
  {
    hide OccursAt;
    if !WholeLines(s) && NoBegin(Ended(s)) {
      forall i ensures !BeginAt(s, i) {
        assert !BeginAt(s + ['\n'], i);
        StaysBefore(s, MANAGED_BEGIN, i);
        StaysBefore(s, LEGACY_BEGIN, i);
      }
    }
  }

  lemma StaysBefore(s: string, m: string, i: int)
    ensures OccursAt(s, m, i) ==> OccursAt(s + ['\n'], m, i)
  {
    if i + |m| <= |s| { OccursBefore(s, ['\n'], m, i); }
  }

  /** Installing k times. */
  function Installs(x: string, block: string, k: nat): string
    decreases k
  {
    if k == 0 then x else Installs(Installed(Some(x), block), block, k - 1)
  }

  lemma {:induction false} InstallsSettle(u: string, block: string, inner: string, k: nat)
    requires WholeLines(u) && OwnBlock(block, inner) && |u| <= k
    ensures exists w :: WholeLines(w) && NoBegin(w) && Installs(u + block, block, k) == w + block
    decreases k
  {
    hide FirstBegin, OccursAt, BeginAt, Stripped, NoBegin, OwnBlock, Installed;
    InstalledText(u + block, block);
    StripInFront(u, block, inner);
    var w := Ended(Stripped(u + block));
    assert |w| <= |Stripped(u + block)| + 1;
    if k == 0 {
      NoHeaderInNothing();
      assert u == [] && Installs(u + block, block, k) == u + block;
    } else if NoBegin(u) {
      InstallsStay(u, block, inner, k);
    } else {
      InstallsSettle(w, block, inner, k - 1);
    }
  }

  lemma {:induction false} InstallsStay(u: string, block: string, inner: string, k: nat)
    requires WholeLines(u) && OwnBlock(block, inner) && NoBegin(u)
    ensures Installs(u + block, block, k) == u + block
  {
    hide FirstBegin, OccursAt, BeginAt, Stripped, NoBegin, OwnBlock, Installed;
    if k > 0 {
      InstalledText(u + block, block);
      StripInFront(u, block, inner);
      InstallsStay(u, block, inner, k - 1);
    }
  }

  /** Whatever the file was, installing again and again settles, on a file whose one
      begin marker is the block's. */
  lemma InstallSettles(x: string, block: string, inner: string)
    requires OwnBlock(block, inner)
    ensures var f := Installs(x, block, |x| + 2);
            Installed(Some(f), block) == f && forall i :: BeginAt(f, i) <==> i == |f| - |block|
  {
    hide FirstBegin, OccursAt, BeginAt, Stripped, NoBegin, OwnBlock, Installed;
    InstalledText(x, block);
    var u := Ended(Stripped(x));
    InstallsSettle(u, block, inner, |x| + 1);
    var w :| WholeLines(w) && NoBegin(w) && Installs(u + block, block, |x| + 1) == w + block;
    InstalledText(w + block, block);
    StripInstalled(w, block, inner);
  }

  lemma NotEmptyMarker(m: string)
    requires IsBegin(m)
    ensures |m| > 6 && '[' !in m
  {
    assert forall i | 0 <= i < |m| :: m[i] != '[';
  }

  lemma InstalledText(x: string, block: string)
    ensures Installed(Some(x), block) == Ended(Stripped(x)) + block
  {
    if x == [] { TooShort(x); }
  }

  // ---- Install then disable

  /** Disabling undoes installing, for a text without markers, exactly when the
      text ends in a newline and holds none of the sections that are restored. */
  lemma DisableUndoesInstall(x: string, block: string, inner: string)
    requires x != [] && NoBegin(x) && OwnBlock(block, inner)
    ensures Disabled(Some(Installed(Some(x), block))) == (true, Some(x)) <==> WholeLines(x) && NoHeader(x)
  {
    hide FirstBegin, OccursAt, BeginAt, Stripped, EndsInOpenMarker, Displaced, NoHeader;
    StripsNothing(x);
    var u := Ended(x);
    InstalledText(x, block);
    WhenEndedHasBegin(x);
    HasOwnBegin(u, block, inner);
    var at := IndexOf(u + block, MANAGED_BEGIN).value;
    NothingDisplaced((u + block)[..at]);
    if EndsInOpenMarker(x) {
      var b := FirstOpenMarker(x, block, inner);
      StripOpenMarker(u, block, inner, b);
      NotRestored(x, b, Displaced((u + block)[..at]));
    } else {
      StripInstalled(u, block, inner);
      assert (u + block)[..at] == u;
    }
  }

  lemma HasOwnBegin(u: string, block: string, inner: string)
    requires OwnBlock(block, inner)
    ensures IndexOf(u + block, MANAGED_BEGIN).Some? && u + block != []
  {
    hide OccursAt;
    assert u + block == u + (MANAGED_BEGIN + (inner + MANAGED_END));
    StartsWith(MANAGED_BEGIN, inner + MANAGED_END);
    OccursAfter(u, MANAGED_BEGIN + (inner + MANAGED_END), MANAGED_BEGIN, |u|);
  }

  lemma StripsNothing(x: string)
    requires NoBegin(x)
    ensures Stripped(x) == x
  {
    FirstBeginIsNone(x);
  }

  /** Without its open marker the text does not come back. */
  lemma NotRestored(x: string, b: nat, displaced: string)
    requires !WholeLines(x) && b < |x| && IsBegin(Ended(x)[b..]) && (displaced != [] ==> '[' in displaced)
    ensures Ended(x)[..b] != x
    ensures displaced != [] ==> Ended(Ended(x)[..b]) + displaced != x
  {
    var u := Ended(x);
    NotEmptyMarker(u[b..]);
    hide IsBegin;
    if displaced != [] && Ended(u[..b]) + displaced == x {
      var k :| 0 <= k < |displaced| && displaced[k] == '[';
      StandsBehind(u, b, Ended(u[..b]), displaced, k);
    }
  }

  lemma StandsBehind(u: string, b: nat, front: string, back: string, k: nat)
    requires front + back <= u && b <= |front| && k < |back|
    ensures back[k] in u[b..]
  {
    assert u[b..][|front| - b + k] == (front + back)[|front| + k];
  }

  lemma FreshInstallIsDeleted(block: string, inner: string)
    requires OwnBlock(block, inner)
    ensures Disabled(Some(Installed(None, block))) == (true, None)
  {
    hide FirstBegin, OccursAt, BeginAt, Stripped, Displaced;
    assert [] + block == block;
    NoHeaderInNothing();
    StripInstalled([], block, inner);
    NothingDisplaced([]);
    assert block[..0] == [];
  }

  lemma NoHeaderInNothing()
    ensures NoHeader([]) && NoBegin([])
  {
  }

  // ---- What the user wrote survives

  /** Over any number of old sections, of either generation, installing keeps the
      user's text and replaces all of them with the fresh block. */
  lemma InstallKeepsUserText(l: Layout, block: string)
    requires LaidOut(l)
    ensures Installed(Some(Render(l)), block) == Ended(UserText(l)) + block
  {
    StrippedKeepsUserText(l);
    InstalledText(Render(l), block);
  }

  /** Disabling leaves the user's text alone, and deletes a file in which nothing is
      left, exactly when no section in front of the block is restored. */
  lemma DisableKeepsUserText(l: Layout, at: nat)
    requires LaidOut(l) && IndexOf(Render(l), MANAGED_BEGIN) == Some(at)
    ensures Disabled(Some(Render(l))) == (true, if UserText(l) == [] then None else Some(UserText(l)))
       <==> NoHeader(Render(l)[..at])
  {
    hide OccursAt, Stripped, Displaced, NoHeader;
    StrippedKeepsUserText(l);
    NothingDisplaced(Render(l)[..at]);
    assert |Ended(UserText(l))| >= |UserText(l)|;
  }

  // ---- Which files are disabled at all

  /** Some section begins with the current marker or holds it inside, or the rest does. */
  predicate HoldsCurrent(l: Layout) {
    match l
    case Rest(user) => Contains(user, MANAGED_BEGIN)
    case Section(_, begin, inner, _, _, next) =>
      begin == MANAGED_BEGIN || Contains(inner, MANAGED_BEGIN) || HoldsCurrent(next)
  }

  predicate Marked(s: string) { Contains(s, MANAGED_BEGIN) }

  lemma MarkedLines(a: string, b: string)
    requires WholeLines(a)
    ensures Marked(a + b) <==> Marked(a) || Marked(b)
  {
    hide OccursAt;
    MarkersAreLines();
    if i :| 0 <= i <= |a| && OccursAt(a, MANAGED_BEGIN, i) { NoStraddle(a, b, MANAGED_BEGIN, i); }
    if i :| 0 <= i <= |b| && OccursAt(b, MANAGED_BEGIN, i) {
      NoStraddle(a, b, MANAGED_BEGIN, |a| + i);
      assert OccursAt(a + b, MANAGED_BEGIN, |a| + i);
    }
    if i :| 0 <= i <= |a + b| && OccursAt(a + b, MANAGED_BEGIN, i) {
      NoStraddle(a, b, MANAGED_BEGIN, i);
      Within(a, i);
      Within(b, i - |a|);
    }
  }

  lemma Within(s: string, i: int)
    ensures OccursAt(s, MANAGED_BEGIN, i) ==> 0 <= i <= |s|
  {
  }

  /** The marker has its only '#' in front, so it does not run into an end marker. */
  lemma MarkedBefore(a: string, b: string)
    requires b != [] && b[0] == '#'
    ensures Marked(a + b) <==> Marked(a) || Marked(b)
  {
    hide OccursAt;
    if i :| 0 <= i <= |a| && OccursAt(a, MANAGED_BEGIN, i) {
      NotAcross(a, b, MANAGED_BEGIN, i);
      assert OccursAt(a + b, MANAGED_BEGIN, i);
    }
    if i :| 0 <= i <= |b| && OccursAt(b, MANAGED_BEGIN, i) {
      NotAcross(a, b, MANAGED_BEGIN, |a| + i);
      assert OccursAt(a + b, MANAGED_BEGIN, |a| + i);
    }
    if i :| 0 <= i <= |a + b| && OccursAt(a + b, MANAGED_BEGIN, i) {
      NotAcross(a, b, MANAGED_BEGIN, i);
      Within(a, i);
      Within(b, i - |a|);
    }
  }

  lemma MarkerMarked(begin: string, end: string)
    requires IsBegin(begin) && IsEnd(end)
    ensures (Marked(begin) <==> begin == MANAGED_BEGIN) && !Marked(end)
  {
    if begin == MANAGED_BEGIN {
      assert begin[0..|begin|] == begin;
      assert OccursAt(begin, MANAGED_BEGIN, 0);
    } else {
      assert |begin| < |MANAGED_BEGIN|;
    }
    NoBeginInEnd(end);
    forall i ensures !OccursAt(end, MANAGED_BEGIN, i) {
      assert !BeginAt(end, i);
    }
  }

  lemma UnmarkedGap(gap: string)
    requires IsGap(gap)
    ensures !Marked(gap)
  {
    if i :| 0 <= i <= |gap| && OccursAt(gap, MANAGED_BEGIN, i) {
      assert gap + [] == gap;
      NotFromGap(gap, [], i);
      assert false;
    }
  }

  lemma GapMarked(gap: string, b: string)
    requires IsGap(gap)
    ensures Marked(gap + b) <==> Marked(b)
  {
    UnmarkedGap(gap);
    hide OccursAt, IsGap;
    if i :| 0 <= i <= |b| && OccursAt(b, MANAGED_BEGIN, i) {
      OccursAfter(gap, b, MANAGED_BEGIN, |gap| + i);
      assert OccursAt(gap + b, MANAGED_BEGIN, |gap| + i);
    }
    if i :| 0 <= i <= |gap + b| && OccursAt(gap + b, MANAGED_BEGIN, i) {
      NotFromGap(gap, b, i);
      OccursAfter(gap, b, MANAGED_BEGIN, i);
      Within(b, i - |gap|);
    }
  }

  lemma NotFromGap(gap: string, b: string, i: nat)
    requires IsGap(gap) && OccursAt(gap + b, MANAGED_BEGIN, i)
    ensures |gap| <= i
  {
    MarkerText(MANAGED_BEGIN);
    assert (gap + b)[i..i + |MANAGED_BEGIN|][0] == (gap + b)[i];
  }

  /** Where the current marker is, in terms of the sections. */
  lemma {:induction false} MarkedIff(l: Layout)
    requires LaidOut(l)
    ensures Marked(Render(l)) <==> HoldsCurrent(l)
  {
    hide Marked, OccursAt, Contains, BeginAt, EndAt, NoEndBefore;
    match l
    case Rest(user) =>
      InnerMarked(user);
    case Section(user, begin, inner, end, gap, next) =>
      var behind := end + (gap + Render(next));
      UserIsUnmarked(user);
      MarkedIff(next);
      MarkerMarked(begin, end);
      MarkerText(begin);
      MarkerText(end);
      MarkersAreLines();
      MarkedBefore(user, begin + inner + behind);
      assert begin + inner + behind == begin + (inner + behind);
      MarkedLines(begin, inner + behind);
      MarkedBefore(inner, behind);
      MarkedLines(end, gap + Render(next));
      GapMarked(gap, Render(next));
      InnerMarked(inner);
  }

  lemma InnerMarked(inner: string)
    ensures Marked(inner) <==> Contains(inner, MANAGED_BEGIN)
  {
    hide Contains;
  }

  lemma UserIsUnmarked(user: string)
    requires NoBegin(user)
    ensures !Marked(user)
  {
    hide OccursAt;
    forall i ensures !OccursAt(user, MANAGED_BEGIN, i) {
      assert !BeginAt(user, i);
    }
  }

  /** Disabling touches a file exactly when one of its sections begins with the current
      marker or holds it inside, or the rest does: only that marker is looked for. */
  lemma DisableTouchesIff(l: Layout)
    requires LaidOut(l)
    ensures Disabled(Some(Render(l))).0 <==> HoldsCurrent(l)
    ensures !HoldsCurrent(l) ==> Disabled(Some(Render(l))) == (false, Some(Render(l)))
  {
    hide OccursAt, Stripped, Displaced, LaidOut, Render, HoldsCurrent, Kept;
    MarkedIff(l);
    FoundIffMarked(Render(l));
  }

  lemma FoundIffMarked(s: string)
    ensures IndexOf(s, MANAGED_BEGIN).Some? <==> Marked(s)
  {
    hide IndexFrom;
  }

  /** So sections of the previous generation stay, however many there are, though
      removing the sections would take them out. */
  lemma LegacyBlockStays(l: Layout)
    requires LaidOut(l) && l.Section? && !HoldsCurrent(l)
    ensures Disabled(Some(Render(l))) == (false, Some(Render(l)))
    ensures Stripped(Render(l)) == UserText(l) && |UserText(l)| < |Render(l)|
  {
    hide OccursAt, Stripped, Displaced, HoldsCurrent, Disabled;
    DisableTouchesIff(l);
    StrippedKeepsUserText(l);
    TextIsShorter(l.next);
    MarkerText(l.begin);
  }

  lemma {:induction false} TextIsShorter(l: Layout)
    ensures |UserText(l)| <= |Render(l)|
  {
    if l.Section? { TextIsShorter(l.next); }
  }
}
