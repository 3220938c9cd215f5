/**
 * The text of a service listing, written by one crate
 * (ndn-discovery/src/mgmt.rs) and read back by another (ndn-viz/src/service.rs).
 */
module ServiceText {
  import opened Common

  const NODE := "  node="
  const FRESHNESS := "  freshness="

  datatype ServiceRecord = ServiceRecord(prefix: string, node: string, freshnessMs: nat, isLocal: bool)

  // -------------------------------------------------------------------------- numbers

  predicate IsDigit(c: char) {
    '0' <= c <= '9'
  }

  /** `{}` of an unsigned number. */
  function Show(n: nat): (s: string)
    ensures s != "" && forall k :: 0 <= k < |s| ==> IsDigit(s[k])
  {
    if n < 10 then [Digit(n)] else Show(n / 10) + [Digit(n % 10)]
  }

  function Value(digits: string): Option<nat> {
    if digits == "" then Some(0)
    else
      var last := digits[|digits| - 1];
      match Value(digits[..|digits| - 1])
      case None => None
      case Some(high) => if IsDigit(last) then Some(high * 10 + (last as int - '0' as int)) else None
  }

  /** `parse::<u64>`: a leading plus is allowed, no digits or too many are not. */
  function ParseU64(s: string): Option<nat> {
    var digits := if s != "" && s[0] == '+' then s[1..] else s;
    if digits == "" then None
    else match Value(digits)
         case None => None
         case Some(n) => if n < U64 then Some(n) else None
  }

  lemma {:induction false} ShowValue(n: nat)
    ensures Value(Show(n)) == Some(n)
  {
    if n < 10 {
      assert Show(n)[..0] == "";
    } else {
      ShowValue(n / 10);
      assert Show(n)[..|Show(n)| - 1] == Show(n / 10);
    }
  }

  lemma NumberRoundTrip(n: nat)
    requires n < U64
    ensures ParseU64(Show(n)) == Some(n)
  {
    ShowValue(n);
    assert IsDigit(Show(n)[0]);
  }

  function Zeros(k: nat): string {
    if k == 0 then "" else "0" + Zeros(k - 1)
  }

  lemma ZerosSnoc(k: nat)
    ensures Zeros(k + 1) == Zeros(k) + "0"
  {
    if k > 0 {
      ZerosSnoc(k - 1);
    }
  }

  lemma ZerosAreNought(k: nat)
    ensures Value(Zeros(k)) == Some(0)
  {
    if k > 0 {
      ZerosSnoc(k - 1);
      assert Zeros(k)[..|Zeros(k)| - 1] == Zeros(k - 1);
      ZerosAreNought(k - 1);
    }
  }

  lemma {:induction false} ZerosAhead(k: nat, n: nat)
    ensures Value(Zeros(k) + Show(n)) == Some(n)
    decreases n
  {
    if n < 10 {
      var s := Zeros(k) + Show(n);
      assert s == Zeros(k) + [Digit(n)] && s[..|s| - 1] == Zeros(k);
      ZerosAreNought(k);
    } else {
      ZerosAhead(k, n / 10);
      var s := Zeros(k) + Show(n);
      assert s == Zeros(k) + Show(n / 10) + [Digit(n % 10)];
      assert s[..|s| - 1] == Zeros(k) + Show(n / 10);
    }
  }

  lemma ValueSnoc(digits: string, n: nat)
    requires digits != "" && Value(digits) == Some(n)
    ensures var high, last := digits[..|digits| - 1], digits[|digits| - 1];
            Value(high) == Some(n / 10) && last == Digit(n % 10) && digits == high + [last]
  {
  }

  lemma ShowSnoc(n: nat)
    ensures Show(n) == if n < 10 then [Digit(n % 10)] else Show(n / 10) + [Digit(n % 10)]
    ensures Show(0) == "0"
  {
  }

  /** The digits of a number, behind any zeros, are what is read as it. */
  lemma {:induction false} DigitsTell(digits: string, n: nat) returns (k: nat)
    requires digits != "" && Value(digits) == Some(n)
    ensures digits == Zeros(k) + Show(n)
    decreases |digits|
  {
    hide Show, Value, Zeros, Digit;
    var high, last := digits[..|digits| - 1], [Digit(n % 10)];
    ValueSnoc(digits, n);
    ShowSnoc(n);
    if high == "" {
      k := 0;
      NoDigits();
      assert digits == "" + last;
    } else {
      k := DigitsTell(high, n / 10);
      if n < 10 {
        ZerosSnoc(k);
        k := k + 1;
      } else {
        Assoc(Zeros(k), Show(n / 10), last);
      }
    }
  }

  lemma NoDigits()
    ensures Value("") == Some(0) && Zeros(0) == "" && Show(0) == "0"
  {
  }

  /** A number is read from its decimal digits, behind any zeros and maybe one plus, and
      from nothing else; one of 2^64 or more is not read. */
  lemma NumberReadIff(s: string, n: nat)
    ensures ParseU64(s) == Some(n) <==>
            n < 0x1_0000_0000_0000_0000 && exists k: nat :: s == Zeros(k) + Show(n) || s == "+" + (Zeros(k) + Show(n))
  {
    hide Show, Value;
    if ParseU64(s) == Some(n) {
      var digits := if s[0] == '+' then s[1..] else s;
      var k := DigitsTell(digits, n);
      assert s[0] == '+' ==> s == "+" + digits;
    }
    if k: nat :| n < U64 && (s == Zeros(k) + Show(n) || s == "+" + (Zeros(k) + Show(n))) {
      ZerosAhead(k, n);
      FirstIsDigit(k, n);
    }
  }

  lemma FirstIsDigit(k: nat, n: nat)
    ensures IsDigit((Zeros(k) + Show(n))[0])
  {
    assert IsDigit(Show(n)[0]);
  }

  // ------------------------------------------------------------------------- searching

  predicate OccursAt(s: string, pat: string, i: int) {
    0 <= i && i + |pat| <= |s| && s[i..i + |pat|] == pat
  }

  /** The last occurrence at or before `i`. */
  function RFindFrom(s: string, pat: string, i: int): (r: Option<nat>)
    ensures r.Some? ==> r.value <= i && OccursAt(s, pat, r.value)
    ensures forall j :: (if r.Some? then r.value else -1) < j <= i ==> !OccursAt(s, pat, j)
    decreases i + 1
  {
    if i < 0 then None
    else if OccursAt(s, pat, i) then Some(i)
    else RFindFrom(s, pat, i - 1)
  }

  /** `rfind`. */
  function RFind(s: string, pat: string): (r: Option<nat>)
    ensures r.Some? ==> OccursAt(s, pat, r.value)
    ensures forall j :: OccursAt(s, pat, j) ==> r.Some? && j <= r.value
  {
    RFindFrom(s, pat, |s|)
  }

  lemma RFindIs(s: string, pat: string, i: nat)
    requires OccursAt(s, pat, i) && forall j :: i < j ==> !OccursAt(s, pat, j)
    ensures RFind(s, pat) == Some(i)
  {
  }

  /** A separator: two spaces, then none. */
  predicate Separates(pat: string) {
    |pat| > 2 && pat[0] == pat[1] == ' ' && forall k :: 2 <= k < |pat| ==> pat[k] != ' '
  }

  lemma OccursStarts(s: string, pat: string, j: int)
    ensures OccursAt(s, pat, j) && |pat| >= 2 ==> j + 1 < |s| && s[j] == pat[0] && s[j + 1] == pat[1]
  {
    if OccursAt(s, pat, j) && |pat| >= 2 {
      assert s[j] == s[j..j + |pat|][0] && s[j + 1] == s[j..j + |pat|][1];
    }
  }

  lemma OccursInRest(a: string, pat: string, b: string, j: int)
    requires Separates(pat) && j > |a|
    ensures OccursAt(a + pat + b, pat, j) <==> OccursAt(b, pat, j - |a| - |pat|)
  {
    var s := a + pat + b;
    if j >= |a| + |pat| {
      if j + |pat| <= |s| {
        assert s[j..j + |pat|] == b[j - |a| - |pat|..j - |a|];
      }
    } else if OccursAt(s, pat, j) {
      TwoSpaces(a, pat, b, j);
    }
  }

  /** No occurrence starts inside a separator. */
  lemma TwoSpaces(a: string, pat: string, b: string, j: int)
    requires Separates(pat) && |a| < j < |a| + |pat|
    ensures !OccursAt(a + pat + b, pat, j)
  {
    var s := a + pat + b;
    OccursStarts(s, pat, j);
    assert s[j] == pat[j - |a|];
    assert j == |a| + 1 ==> s[j + 1] == pat[2];
  }

  /** The last separator of a line is the one written, unless the rest has one. */
  lemma RFindSeparator(a: string, pat: string, b: string)
    requires Separates(pat)
    ensures RFind(a + pat + b, pat) ==
            match RFind(b, pat) case None => Some(|a|) case Some(i) => Some(|a| + |pat| + i)
  {
    hide OccursAt, Separates, RFind;
    var s := a + pat + b;
    forall j | j > |a|
      ensures OccursAt(s, pat, j) <==> OccursAt(b, pat, j - |a| - |pat|)
    {
      OccursInRest(a, pat, b, j);
    }
    OccursHere(a, pat, b);
    var i := match RFind(b, pat) case None => |a| case Some(i) => |a| + |pat| + i;
    RFindSpec(b, pat);
    forall j | i < j
      ensures !OccursAt(s, pat, j)
    {
      assert OccursAt(s, pat, j) <==> OccursAt(b, pat, j - |a| - |pat|);
    }
    RFindIs(s, pat, i);
  }

  lemma RFindSpec(s: string, pat: string)
    ensures RFind(s, pat).Some? ==> OccursAt(s, pat, RFind(s, pat).value)
    ensures forall j :: OccursAt(s, pat, j) ==> RFind(s, pat).Some? && j <= RFind(s, pat).value
  {
  }

  lemma OccursHere(a: string, pat: string, b: string)
    ensures OccursAt(a + pat + b, pat, |a|)
  {
    Seams(a, pat, b);
  }

  lemma NoSpaceNoSeparator(s: string, pat: string)
    requires Separates(pat) && forall k :: 0 <= k < |s| ==> s[k] != ' '
    ensures RFind(s, pat) == None
  {
    forall j
      ensures !OccursAt(s, pat, j)
    {
      OccursStarts(s, pat, j);
    }
  }

  // --------------------------------------------------------------------------- one line

  /** `char::is_whitespace`. */
  predicate IsSpace(c: char) {
    || '\U{9}' <= c <= '\U{D}' || c == ' ' || c == '\U{85}' || c == '\U{A0}' || c == '\U{1680}'
    || '\U{2000}' <= c <= '\U{200A}' || c == '\U{2028}' || c == '\U{2029}' || c == '\U{202F}'
    || c == '\U{205F}' || c == '\U{3000}'
  }

  function TrimStart(s: string): string {
    if s != "" && IsSpace(s[0]) then TrimStart(s[1..]) else s
  }

  /** The line of one record, without its newline. */
  function Line(r: ServiceRecord): string {
    "  " + r.prefix + NODE + r.node + FRESHNESS + (Show(r.freshnessMs) + "ms")
  }

  function StripMs(s: string): Option<string> {
    if |s| >= 2 && s[|s| - 2..] == "ms" then Some(s[..|s| - 2]) else None
  }

  /** What one line of the text tells, if anything. */
  function ParseLine(line: string): Option<ServiceRecord> {
    match RFind(line, FRESHNESS)
    case None => None
    case Some(f) =>
      if f + |FRESHNESS| > |line| then None
      else match StripMs(line[f + |FRESHNESS|..])
           case None => None
           case Some(ms) =>
             match ParseU64(ms)
             case None => None
             case Some(freshness) => ParseHead(line[..f], freshness)
  }

  function ParseHead(head: string, freshness: nat): Option<ServiceRecord> {
    match RFind(head, NODE)
    case None => None
    case Some(n) =>
      if n + |NODE| > |head| then None
      else
        var prefix, node := TrimStart(head[..n]), head[n + |NODE|..];
        if prefix == "" || node == "" then None else Some(ServiceRecord(prefix, node, freshness, false))
  }

  lemma TrimIndent(prefix: string)
    ensures TrimStart("  " + prefix) == TrimStart(prefix)
  {
    assert ("  " + prefix)[1..] == " " + prefix && (" " + prefix)[1..] == prefix;
  }

  lemma {:induction false} TrimmedIsNoLonger(s: string)
    ensures |TrimStart(s)| <= |s|
    ensures TrimStart(s) == s <==> s == "" || !IsSpace(s[0])
  {
    if s != "" && IsSpace(s[0]) {
      TrimmedIsNoLonger(s[1..]);
    }
  }

  /** What a record needs for its line to be read back as it was. */
  predicate Readable(r: ServiceRecord) {
    && r.prefix != "" && !IsSpace(r.prefix[0])
    && r.node != "" && RFind(r.node, NODE) == None
  }

  lemma SeparatorsSeparate()
    ensures Separates(NODE) && Separates(FRESHNESS)
  {
  }

  lemma TailReadsBack(ms: nat)
    requires ms < U64
    ensures StripMs(Show(ms) + "ms") == Some(Show(ms)) && ParseU64(Show(ms)) == Some(ms)
    ensures RFind(Show(ms) + "ms", FRESHNESS) == None
  {
    NumberRoundTrip(ms);
    var s := Show(ms) + "ms";
    assert s[|s| - 2..] == "ms" && s[..|s| - 2] == Show(ms);
    forall k | 0 <= k < |s|
      ensures s[k] != ' '
    {
      if k < |Show(ms)| {
        assert IsDigit(Show(ms)[k]);
      }
    }
    SeparatorsSeparate();
    NoSpaceNoSeparator(s, FRESHNESS);
  }

  /** Prefixes may hold either separator, and nodes the freshness one. */
  lemma LineReadsBack(r: ServiceRecord)
    requires r.freshnessMs < U64 && !r.isLocal
    ensures ParseLine(Line(r)) == Some(r) <==> Readable(r)
  {
    hide RFind, ParseU64, StripMs, Show, Separates, TrimStart, IsSpace;
    var head, tail := "  " + r.prefix + NODE + r.node, Show(r.freshnessMs) + "ms";
    SeparatorsSeparate();
    TailReadsBack(r.freshnessMs);
    RFindSeparator(head, FRESHNESS, tail);
    Seams(head, FRESHNESS, tail);
    assert Line(r) == head + FRESHNESS + tail;
    HeadReadsBack(r);
  }

  lemma HeadReadsBack(r: ServiceRecord)
    requires !r.isLocal
    ensures ParseHead("  " + r.prefix + NODE + r.node, r.freshnessMs) == Some(r) <==> Readable(r)
  {
    hide RFind, Separates, TrimStart, IsSpace;
    var head := "  " + r.prefix + NODE + r.node;
    SeparatorsSeparate();
    RFindSeparator("  " + r.prefix, NODE, r.node);
    RFindSpec(r.node, NODE);
    Seams("  " + r.prefix, NODE, r.node);
    TrimIndent(r.prefix);
    TrimmedIsNoLonger(r.prefix);
    if RFind(r.node, NODE).Some? {
      var i := RFind(r.node, NODE).value;
      assert OccursAt(r.node, NODE, i);
      assert |head[|"  " + r.prefix| + |NODE| + i + |NODE|..]| < |r.node|;
    }
  }

  ghost predicate AllSpace(s: string) {
    forall k :: 0 <= k < |s| ==> IsSpace(s[k])
  }

  /** What is trimmed is the whitespace in front, all of it. */
  lemma {:induction false} TrimIs(s: string)
    ensures var t := TrimStart(s);
            |t| <= |s| && s[|s| - |t|..] == t && AllSpace(s[..|s| - |t|]) && (t == "" || !IsSpace(t[0]))
  {
    if s != "" && IsSpace(s[0]) {
      TrimIs(s[1..]);
      var t := TrimStart(s[1..]);
      assert s[..|s| - |t|] == [s[0]] + s[1..][..|s[1..]| - |t|];
    }
  }

  lemma {:induction false} TrimSpace(indent: string, rest: string)
    requires AllSpace(indent) && (rest == "" || !IsSpace(rest[0]))
    ensures TrimStart(indent + rest) == rest
  {
    if indent == "" {
      assert indent + rest == rest;
    } else {
      assert (indent + rest)[1..] == indent[1..] + rest;
      TrimSpace(indent[1..], rest);
    }
  }

  /** The whitespace that counts: the 25 characters that Unicode calls so. */
  lemma SpacesAre(c: char)
    ensures IsSpace(c) <==>
            c as int in {9, 10, 11, 12, 13, 32, 133, 160, 5760, 8192, 8193, 8194, 8195, 8196, 8197, 8198, 8199, 8200,
                         8201, 8202, 8232, 8233, 8239, 8287, 12288}
  {
  }

  lemma NumberHasNoSpace(num: string)
    requires ParseU64(num).Some?
    ensures num != "" && forall k :: 0 <= k < |num| ==> num[k] != ' '
  {
    var digits := if num[0] == '+' then num[1..] else num;
    OnlyDigits(digits);
    assert forall k :: 1 <= k < |num| && num[0] == '+' ==> num[k] == digits[k - 1];
  }

  lemma MsStripped(num: string)
    ensures StripMs(num + "ms") == Some(num)
  {
    var s := num + "ms";
    assert s[|s| - 2..] == "ms" && s[..|s| - 2] == num;
  }

  lemma DigitsHaveNoSpace(num: string, ms: nat)
    requires ParseU64(num) == Some(ms)
    ensures RFind(num + "ms", FRESHNESS) == None && StripMs(num + "ms") == Some(num)
  {
    hide ParseU64, RFind, Separates, StripMs;
    NumberHasNoSpace(num);
    MsStripped(num);
    SeparatorsSeparate();
    NoSpaceNoSeparator(num + "ms", FRESHNESS);
  }

  lemma {:induction false} OnlyDigits(digits: string)
    requires Value(digits).Some?
    ensures forall k :: 0 <= k < |digits| ==> IsDigit(digits[k])
  {
    if digits != "" {
      OnlyDigits(digits[..|digits| - 1]);
    }
  }

  /** The line, cut at its separators. */
  function CutLine(indent: string, r: ServiceRecord, num: string): string {
    indent + r.prefix + NODE + r.node + FRESHNESS + (num + "ms")
  }

  /**
   * A line tells a record exactly if it is any whitespace, the prefix, `  node=`, the node,
   * `  freshness=`, a number and `ms`, where the prefix starts with no whitespace, neither
   * name is empty, and the node holds no further `  node=`.
   */
  lemma LineReadIff(line: string, r: ServiceRecord)
    ensures ParseLine(line) == Some(r) <==>
            && Readable(r) && !r.isLocal
            && exists indent, num :: AllSpace(indent) && ParseU64(num) == Some(r.freshnessMs)
                                     && line == CutLine(indent, r, num)
  {
    if ParseLine(line) == Some(r) {
      LineIsCut(line, r);
    }
    if indent, num :| Readable(r) && !r.isLocal && AllSpace(indent) && ParseU64(num) == Some(r.freshnessMs)
                      && line == CutLine(indent, r, num)
    {
      CutIsRead(indent, r, num);
    }
  }

  lemma CutIsRead(indent: string, r: ServiceRecord, num: string)
    requires Readable(r) && !r.isLocal && AllSpace(indent) && ParseU64(num) == Some(r.freshnessMs)
    ensures ParseLine(CutLine(indent, r, num)) == Some(r)
  {
    hide RFind, ParseU64, StripMs, Separates, TrimStart, IsSpace, AllSpace;
    var head := indent + r.prefix + NODE + r.node;
    SeparatorsSeparate();
    DigitsHaveNoSpace(num, r.freshnessMs);
    RFindSeparator(head, FRESHNESS, num + "ms");
    Seams(head, FRESHNESS, num + "ms");
    RFindSeparator(indent + r.prefix, NODE, r.node);
    Seams(indent + r.prefix, NODE, r.node);
    TrimSpace(indent, r.prefix);
  }

  lemma LineIsCut(line: string, r: ServiceRecord)
    requires ParseLine(line) == Some(r)
    ensures Readable(r) && !r.isLocal
    ensures exists indent, num :: AllSpace(indent) && ParseU64(num) == Some(r.freshnessMs)
                                  && line == CutLine(indent, r, num)
  {
    hide RFind, ParseU64, ParseHead, AllSpace, Readable;
    var f := RFind(line, FRESHNESS).value;
    var head, tail := line[..f], line[f + |FRESHNESS|..];
    var num := StripMs(tail).value;
    HeadTellsFreshness(head, ParseU64(num).value, r);
    RFindSpec(line, FRESHNESS);
    assert tail == num + "ms";
    var indent := HeadIsCut(head, r);
    CutAt(line, FRESHNESS, f);
    assert line == CutLine(indent, r, num);
  }

  lemma HeadTellsFreshness(head: string, ms: nat, r: ServiceRecord)
    requires ParseHead(head, ms) == Some(r)
    ensures r.freshnessMs == ms && !r.isLocal
  {
  }

  lemma CutAt(s: string, pat: string, i: nat)
    requires OccursAt(s, pat, i)
    ensures s == s[..i] + pat + s[i + |pat|..]
  {
  }

  lemma HeadIsCut(head: string, r: ServiceRecord) returns (indent: string)
    requires ParseHead(head, r.freshnessMs) == Some(r)
    ensures Readable(r) && AllSpace(indent) && head == indent + r.prefix + NODE + r.node
  {
    hide RFind, TrimStart, IsSpace, AllSpace;
    var n := RFind(head, NODE).value;
    RFindSpec(head, NODE);
    CutAt(head, NODE, n);
    var before := head[..n];
    TrimIs(before);
    indent := before[..|before| - |r.prefix|];
    assert before == indent + r.prefix;
    NoLaterNode(before, r.node);
  }

  lemma NoLaterNode(before: string, node: string)
    requires RFind(before + NODE + node, NODE) == Some(|before|)
    ensures RFind(node, NODE) == None
  {
    hide RFind;
    SeparatorsSeparate();
    RFindSeparator(before, NODE, node);
  }

  // -------------------------------------------------------------------------- the listing

  predicate OneLine(s: string) {
    '\n' !in s
  }

  function StripCr(s: string): string {
    if s != "" && s[|s| - 1] == '\r' then s[..|s| - 1] else s
  }

  function NewlineAt(text: string): (i: nat)
    ensures i <= |text| && '\n' !in text[..i] && (i < |text| ==> text[i] == '\n')
  {
    if text == "" || text[0] == '\n' then 0
    else
      var i := NewlineAt(text[1..]);
      assert text[..i + 1] == [text[0]] + text[1..][..i];
      i + 1
  }

  /** `str::lines`. */
  function Lines(text: string): seq<string>
    decreases |text|
  {
    if text == "" then []
    else
      var i := NewlineAt(text);
      if i == |text| then [text] else [StripCr(text[..i])] + Lines(text[i + 1..])
  }

  function Listed(r: ServiceRecord): string {
    Line(r) + "\n"
  }

  function AllListed(rs: seq<ServiceRecord>): string {
    if rs == [] then "" else Listed(rs[0]) + AllListed(rs[1..])
  }

  /** The whole text: a header line, then one line a record. */
  function Listing(rs: seq<ServiceRecord>): string {
    Show(|rs|) + " services" + "\n" + AllListed(rs)
  }

  function ParseLines(lines: seq<string>): seq<ServiceRecord> {
    if lines == [] then []
    else match ParseLine(lines[0])
         case None => ParseLines(lines[1..])
         case Some(r) => [r] + ParseLines(lines[1..])
  }

  lemma FirstLine(line: string, rest: string)
    requires OneLine(line)
    ensures Lines(line + "\n" + rest) == [StripCr(line)] + Lines(rest)
  {
    var text := line + "\n" + rest;
    var i := NewlineAt(text);
    assert text[|line|] == '\n';
    assert forall k :: 0 <= k < |line| ==> text[k] == line[k] && line[k] in line;
    assert forall k :: 0 <= k < i ==> text[k] == text[..i][k] && text[k] in text[..i];
    assert i == |line|;
    assert text[..i] == line && text[i + 1..] == rest;
  }

  /** Lines, each with the same end. */
  function WithEnds(lines: seq<string>, end: string): string {
    if lines == [] then "" else lines[0] + end + WithEnds(lines[1..], end)
  }

  ghost predicate NoCr(s: string) {
    s == "" || s[|s| - 1] != '\r'
  }

  /** Lines are found again whether they end in a newline or in a carriage return and a
      newline, and the last one needs no end. */
  lemma {:induction false} LinesReadBack(lines: seq<string>, crlf: bool, last: string)
    requires OneLine(last) && forall k :: 0 <= k < |lines| ==> OneLine(lines[k]) && NoCr(lines[k])
    ensures Lines(WithEnds(lines, if crlf then "\r\n" else "\n") + last) == lines + (if last == "" then [] else [last])
    decreases |lines|
  {
    hide Lines, NoCr, OneLine;
    var end := if crlf then "\r\n" else "\n";
    if lines == [] {
      assert "" + last == last;
      LastLine(last);
    } else {
      LinesReadBack(lines[1..], crlf, last);
      OneEnd(lines[0], crlf, WithEnds(lines[1..], end) + last);
      Assoc(lines[0] + end, WithEnds(lines[1..], end), last);
    }
  }

  lemma OneEnd(line: string, crlf: bool, rest: string)
    requires OneLine(line) && NoCr(line)
    ensures Lines(line + (if crlf then "\r\n" else "\n") + rest) == [line] + Lines(rest)
  {
    hide Lines;
    if crlf {
      assert line + "\r\n" + rest == line + "\r" + "\n" + rest;
      assert StripCr(line + "\r") == line;
      FirstLine(line + "\r", rest);
    } else {
      FirstLine(line, rest);
    }
  }

  lemma LastLine(last: string)
    requires OneLine(last)
    ensures Lines(last) == if last == "" then [] else [last]
  {
  }

  predicate Printable(r: ServiceRecord) {
    OneLine(r.prefix) && OneLine(r.node) && r.freshnessMs < U64 && !r.isLocal
  }

  lemma LineIsOneLine(r: ServiceRecord)
    requires Printable(r)
    ensures OneLine(Line(r)) && StripCr(Line(r)) == Line(r)
  {
    hide Show;
    NoNewlineInNumber(r.freshnessMs);
    var line := Line(r);
    assert line[|line| - 1] == 's';
  }

  lemma NoNewlineInNumber(n: nat)
    ensures '\n' !in Show(n)
  {
  }

  /** No fewer records than lines means one of each. */
  lemma {:induction false} LinesTell(rs: seq<ServiceRecord>)
    requires forall k :: 0 <= k < |rs| ==> Printable(rs[k])
    ensures |ParseLines(Lines(AllListed(rs)))| <= |rs|
    ensures ParseLines(Lines(AllListed(rs))) == rs <==> forall k :: 0 <= k < |rs| ==> Readable(rs[k])
    decreases |rs|
  {
    hide Line, ParseLine, Readable, Lines, Printable;
    if rs == [] {
      assert Lines("") == [] by { NoLines(); }
    } else {
      var r, rest := rs[0], rs[1..];
      assert forall k :: 0 <= k < |rest| ==> rest[k] == rs[k + 1];
      LinesTell(rest);
      OneLineTells(r, rest);
      assert rs == [r] + rest;
      assert ParseLines(Lines(AllListed(rs))) ==
             (if ParseLine(Line(r)).Some? then [ParseLine(Line(r)).value] else []) + ParseLines(Lines(AllListed(rest)));
      Peel(ParseLine(Line(r)), ParseLines(Lines(AllListed(rest))), r, rest);
      assert (forall k :: 0 <= k < |rs| ==> Readable(rs[k])) <==>
             (Readable(r) && forall k :: 0 <= k < |rest| ==> Readable(rest[k])) by {
        assert forall k :: 0 < k < |rs| ==> rs[k] == rest[k - 1];
      }
    }
  }

  lemma NoLines()
    ensures Lines("") == []
  {
  }

  lemma OneLineTells(r: ServiceRecord, rest: seq<ServiceRecord>)
    requires Printable(r)
    ensures Lines(AllListed([r] + rest)) == [Line(r)] + Lines(AllListed(rest))
    ensures ParseLine(Line(r)) == Some(r) <==> Readable(r)
  {
    hide Line, Lines, ParseLine, Readable;
    LineIsOneLine(r);
    assert ([r] + rest)[1..] == rest;
    Assoc(Line(r), "\n", AllListed(rest));
    FirstLine(Line(r), AllListed(rest));
    LineReadsBack(r);
  }

  lemma Peel(first: Option<ServiceRecord>, others: seq<ServiceRecord>, r: ServiceRecord, rest: seq<ServiceRecord>)
    requires |others| <= |rest|
    ensures (if first.Some? then [first.value] else []) + others == [r] + rest <==> first == Some(r) && others == rest
  {
    var all := (if first.Some? then [first.value] else []) + others;
    if all == [r] + rest {
      assert |all| == |rest| + 1;
      assert all[0] == r && all[1..] == rest && all[1..] == others;
    }
  }

  lemma HeaderTellsNothing(n: nat, rest: string)
    ensures ParseLines(Lines(Show(n) + " services" + "\n" + rest)) == ParseLines(Lines(rest))
  {
    hide Show, Lines, RFind, Separates;
    var header := Show(n) + " services";
    NoNewlineInNumber(n);
    assert header[|header| - 1] == 's';
    FirstLine(header, rest);
    HeaderHasNoTail(n);
    assert ([header] + Lines(rest))[1..] == Lines(rest);
  }

  lemma HeaderHasNoTail(n: nat)
    ensures RFind(Show(n) + " services", FRESHNESS) == None
  {
    var header := Show(n) + " services";
    forall k | 0 <= k < |header| - 1
      ensures header[k] != ' ' || header[k + 1] != ' '
    {
      assert k < |Show(n)| ==> IsDigit(Show(n)[k]);
    }
    forall j
      ensures !OccursAt(header, FRESHNESS, j)
    {
      OccursStarts(header, FRESHNESS, j);
    }
  }

  /**
   * Any list of records with newline-free names is read back, in order and
   * entire, exactly when every prefix is there and starts with no space and every
   * node is there and does not contain the node separator.
   */
  lemma ListingRoundTrip(rs: seq<ServiceRecord>)
    requires forall k :: 0 <= k < |rs| ==> Printable(rs[k])
    ensures ParseLines(Lines(Listing(rs))) == rs <==> forall k :: 0 <= k < |rs| ==> Readable(rs[k])
  {
    hide Lines, ParseLines, Printable, Readable, AllListed;
    HeaderTellsNothing(|rs|, AllListed(rs));
    LinesTell(rs);
  }

  // --------------------------------------------------------------------------- the methods

  /** `service_list`, and `service_browse` once it has filtered. */
  method Print(records: seq<ServiceRecord>) returns (text: string)
    ensures text == Listing(records)
  {
    hide Show, Line;
    text := Show(|records|) + " services" + "\n";
    ghost var header := text;
    assert header + "" == header && records[0..] == records;
    for k := 0 to |records|
      invariant text + AllListed(records[k..]) == header + AllListed(records)
    {
      assert records[k..][0] == records[k] && records[k..][1..] == records[k + 1..];
      Assoc(text, Listed(records[k]), AllListed(records[k + 1..]));
      text := text + Listed(records[k]);
    }
    assert records[|records|..] == [] && text + "" == text;
  }

  method ParseServiceBrowse(text: string) returns (out: seq<ServiceRecord>)
    ensures out == ParseLines(Lines(text))
  {
    hide Lines, ParseLine;
    out := [];
    var lines := Lines(text);
    assert lines[0..] == lines && [] + ParseLines(lines) == ParseLines(lines);
    for k := 0 to |lines|
      invariant out + ParseLines(lines[k..]) == ParseLines(lines)
    {
      assert lines[k..][0] == lines[k] && lines[k..][1..] == lines[k + 1..];
      var r := ParseLine(lines[k]);
      if r.Some? {
        Assoc(out, [r.value], ParseLines(lines[k + 1..]));
        out := out + [r.value];
      }
    }
    assert lines[|lines|..] == [] && out + [] == out;
  }
}
