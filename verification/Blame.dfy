/** Reading `git blame --porcelain`: one attributed line per line of the file, from records
    that give a commit's details only the first time it appears (the porcelain format of
    git-blame(1)). */
module Blame {
  import opened Wrappers
  import opened Text

  const U32_MAX := 0xFFFF_FFFF

  datatype CommitMeta = CommitMeta(author: string, authorMail: string, authorTime: int, summary: string)

  const UNKNOWN := CommitMeta("", "", 0, "")

  datatype BlameLine = BlameLine(line: nat, commit: string, meta: CommitMeta)

  // ----- single lines -----

  datatype Header = Header(sha: string, finalLine: nat)

  predicate IsHexDigit(c: char) {
    '0' <= c <= '9' || 'a' <= c <= 'f' || 'A' <= c <= 'F'
  }

  predicate IsSha(s: string) {
    |s| == 40 && forall i :: 0 <= i < |s| ==> IsHexDigit(s[i])
  }

  function ParseHeaderLine(line: string): Option<Header> {
    var parts := Split(line, ' ');
    if !IsSha(parts[0]) || |parts| < 3 then None
    else match ParseUnsigned(parts[2], U32_MAX)
      case None => None
      case Some(finalLine) => Some(Header(parts[0], finalLine))
  }

  function StripAngleBrackets(raw: string): string {
    TrimEndChar(TrimStartChar(Trim(raw), '<'), '>')
  }

  predicate IsContent(line: string) {
    StartsWith(line, "\t")
  }

  predicate IsHeader(line: string) {
    !IsContent(line) && ParseHeaderLine(line).Some?
  }

  function TimeOrZero(s: string): int {
    match ParseSigned(Trim(s), I64_LIMIT)
    case Some(n) => n
    case None => 0
  }

  /** A detail line, read into the commit it belongs to. */
  function Detail(meta: CommitMeta, line: string): CommitMeta {
    var mail, time := StripPrefix(line, "author-mail "), StripPrefix(line, "author-time ");
    var author, summary := StripPrefix(line, "author "), StripPrefix(line, "summary ");
    if mail.Some? then meta.(authorMail := StripAngleBrackets(mail.value))
    else if time.Some? then
      meta.(authorTime := TimeOrZero(time.value))
    else if author.Some? then meta.(author := Trim(author.value))
    else if summary.Some? then meta.(summary := Trim(summary.value))
    else meta
  }

  // ----- what the lines read so far say -----

  /** The most recent header. */
  function Current(lines: seq<string>): Option<Header> {
    if lines == [] then None
    else if IsHeader(lines[|lines| - 1]) then ParseHeaderLine(lines[|lines| - 1])
    else Current(lines[..|lines| - 1])
  }

  /** What the detail lines under headers of `sha` have said, later ones over earlier ones. */
  function MetaOf(lines: seq<string>, sha: string): CommitMeta {
    if lines == [] then UNKNOWN
    else
      var front, last := lines[..|lines| - 1], lines[|lines| - 1];
      if !IsContent(last) && !IsHeader(last) && Current(front).Some? && Current(front).value.sha == sha
      then Detail(MetaOf(front, sha), last)
      else MetaOf(front, sha)
  }

  function Attributed(header: Header, lines: seq<string>): BlameLine {
    BlameLine(header.finalLine, header.sha, MetaOf(lines, header.sha))
  }

  /** One result per content line that has a header before it. */
  function Results(lines: seq<string>): seq<BlameLine> {
    if lines == [] then []
    else
      var front, last := lines[..|lines| - 1], lines[|lines| - 1];
      if IsContent(last) && Current(front).Some? then Results(front) + [Attributed(Current(front).value, front)]
      else Results(front)
  }

  // ----- on any input -----

  function ContentLines(lines: seq<string>): nat {
    if lines == [] then 0
    else ContentLines(lines[..|lines| - 1]) + (if IsContent(lines[|lines| - 1]) then 1 else 0)
  }

  /** Positions of the content lines that have a header before them. */
  function AttributedAt(lines: seq<string>): seq<nat> {
    if lines == [] then []
    else
      var n := |lines| - 1;
      if IsContent(lines[n]) && Current(lines[..n]).Some? then AttributedAt(lines[..n]) + [n]
      else AttributedAt(lines[..n])
  }

  /** Each result comes from a content line, in order, and carries the sha and line of the header most
      recently seen there; there are no more results than content lines. */
  lemma {:induction false} ResultsFollowTheLatestHeader(lines: seq<string>)
    ensures var at := AttributedAt(lines);
      && |at| == |Results(lines)| <= ContentLines(lines)
      && (forall m, n :: 0 <= m < n < |at| ==> at[m] < at[n])
      && (forall m :: 0 <= m < |at| ==>
            && at[m] < |lines| && IsContent(lines[at[m]])
            && Current(lines[..at[m]]).Some?
            && Results(lines)[m] == Attributed(Current(lines[..at[m]]).value, lines[..at[m]]))
  {
    hide Attributed, IsContent;
    if lines != [] {
      var n := |lines| - 1;
      ResultsFollowTheLatestHeader(lines[..n]);
      var at := AttributedAt(lines[..n]);
      assert forall m :: 0 <= m < |at| ==> lines[..n][..at[m]] == lines[..at[m]];
    }
  }

  /** Only a header makes a line the current one. */
  lemma {:induction false} CurrentIsTheLastHeader(lines: seq<string>)
    ensures Current(lines).Some? ==>
      exists i :: 0 <= i < |lines| && IsHeader(lines[i]) && Current(lines) == ParseHeaderLine(lines[i])
        && forall j :: i < j < |lines| ==> !IsHeader(lines[j])
  {
    hide IsHeader, ParseHeaderLine;
    if lines != [] && !IsHeader(lines[|lines| - 1]) {
      CurrentIsTheLastHeader(lines[..|lines| - 1]);
    } else if lines != [] {
      assert IsHeader(lines[|lines| - 1]);
    }
  }

  // ----- printing -----

  /** What git knows of a commit: what is read back, and what is printed but not read. */
  datatype Commit = Commit(meta: CommitMeta, authorTz: string, committer: string, committerMail: string,
                           committerTime: string, committerTz: string)

  /** One line of the file. A group's first line also tells the group's size; `extras` are further lines
      git may print before the content (filename, boundary, previous). */
  datatype Entry = Entry(sha: string, origLine: nat, finalLine: nat, groupSize: Option<nat>,
                         extras: seq<string>, content: string)

  function HeaderText(e: Entry): string {
    e.sha + " " + Decimal(e.origLine) + " " + Decimal(e.finalLine)
    + (if e.groupSize.Some? then " " + Decimal(e.groupSize.value) else "")
  }

  function Details(c: Commit): seq<string> {
    [ "author " + c.meta.author,
      "author-mail <" + c.meta.authorMail + ">",
      "author-time " + SignedDecimal(c.meta.authorTime),
      "author-tz " + c.authorTz,
      "committer " + c.committer,
      "committer-mail " + c.committerMail,
      "committer-time " + c.committerTime,
      "committer-tz " + c.committerTz,
      "summary " + c.meta.summary ]
  }

  function ShasOf(entries: seq<Entry>): set<string> {
    set e | e in entries :: e.sha
  }

  /** Details only where a commit first appears, bare headers afterwards. */
  function Print(entries: seq<Entry>, table: map<string, Commit>): seq<string>
    requires ShasOf(entries) <= table.Keys
  {
    if entries == [] then []
    else
      var front, e := entries[..|entries| - 1], entries[|entries| - 1];
      assert ShasOf(front) <= ShasOf(entries) && e in entries;
      Print(front, table) + [HeaderText(e)]
      + (if e.sha in ShasOf(front) then [] else Details(table[e.sha])) + e.extras + ["\t" + e.content]
  }

  /** A commit's details as they are read back: trimmed. */
  function Normal(meta: CommitMeta): CommitMeta {
    CommitMeta(Trim(meta.author), StripAngleBrackets("<" + meta.authorMail + ">"), meta.authorTime, Trim(meta.summary))
  }

  function Expected(entries: seq<Entry>, table: map<string, Commit>): (out: seq<BlameLine>)
    requires ShasOf(entries) <= table.Keys
    ensures |out| == |entries|
  {
    seq(|entries|, i requires 0 <= i < |entries| =>
      assert entries[i] in entries;
      BlameLine(entries[i].finalLine, entries[i].sha, Normal(table[entries[i].sha].meta)))
  }

  /** A line that says nothing to the reader. */
  predicate Ignorable(line: string) {
    && !IsContent(line) && !IsHeader(line)
    && !StartsWith(line, "author-mail ") && !StartsWith(line, "author-time ")
    && !StartsWith(line, "author ") && !StartsWith(line, "summary ")
  }

  predicate Printable(e: Entry, table: map<string, Commit>) {
    && IsSha(e.sha) && e.finalLine <= U32_MAX
    && e.sha in table && 0 - I64_LIMIT <= table[e.sha].meta.authorTime < I64_LIMIT
    && forall i :: 0 <= i < |e.extras| ==> Ignorable(e.extras[i])
  }

  // ----- how each printed line is read -----

  lemma DigitsHaveNoSpace(n: nat)
    ensures ' ' !in Decimal(n)
  {
    DecimalReads(n);
  }

  lemma HeaderTextReads(e: Entry)
    requires IsSha(e.sha) && e.finalLine <= U32_MAX
    ensures IsHeader(HeaderText(e)) && ParseHeaderLine(HeaderText(e)) == Some(Header(e.sha, e.finalLine))
  {
    hide Decimal, Split, ParseUnsigned;
    var orig, final := Decimal(e.origLine), Decimal(e.finalLine);
    DigitsHaveNoSpace(e.origLine);
    DigitsHaveNoSpace(e.finalLine);
    ParseOfDecimal(e.finalLine, U32_MAX);
    var size := if e.groupSize.Some? then " " + Decimal(e.groupSize.value) else "";
    var rest := orig + " " + final + size;
    assert HeaderText(e) == e.sha + [' '] + rest;
    SplitOfConcat(e.sha, ' ', rest);
    assert rest == orig + [' '] + (final + size);
    SplitOfConcat(orig, ' ', final + size);
    if e.groupSize.Some? {
      assert final + size == final + [' '] + Decimal(e.groupSize.value);
      SplitOfConcat(final, ' ', Decimal(e.groupSize.value));
    } else {
      assert final + size == final;
      SplitWithout(final, ' ');
    }
    assert HeaderText(e)[0] == e.sha[0];
  }

  /** Forty hexadecimal digits, in lower or upper case. */
  predicate IsFullSha(s: string) {
    |s| == 40 && forall c :: c in s ==> c in "0123456789abcdefABCDEF"
  }

  lemma HexDigitIff(c: char)
    ensures IsHexDigit(c) <==> c in "0123456789abcdefABCDEF"
  {
    var digits := "0123456789abcdefABCDEF";
    assert forall k :: 0 <= k < 22 ==> IsHexDigit(digits[k]);
    if IsHexDigit(c) {
      var k := if c <= '9' then c as int - '0' as int
               else if c <= 'F' then c as int - 'A' as int + 16
               else c as int - 'a' as int + 10;
      assert digits[k] == c;
    }
  }

  lemma ShaIff(s: string)
    ensures IsSha(s) <==> IsFullSha(s)
  {
    forall c ensures IsHexDigit(c) <==> c in "0123456789abcdefABCDEF" {
      HexDigitIff(c);
    }
    hide IsHexDigit;
    if IsSha(s) {
      forall c | c in s ensures c in "0123456789abcdefABCDEF" {
        var i :| 0 <= i < |s| && s[i] == c;
      }
    }
  }

  /** The third word is `number`, and `sha` the first. */
  predicate StartsWithWords(line: string, sha: string, orig: string, number: string, rest: string) {
    && ' ' !in sha && ' ' !in orig && ' ' !in number && (rest == "" || rest[0] == ' ')
    && line == sha + " " + orig + " " + number + rest
  }

  lemma {:induction false} SplitsOff(line: string) returns (word: string, rest: string)
    ensures ' ' !in word && line == word + rest && (rest == "" || rest[0] == ' ')
    ensures |Split(line, ' ')| == 1 + (if rest == "" then 0 else |Split(rest[1..], ' ')|)
  {
    if line == "" {
      word, rest := "", "";
    } else if line[0] == ' ' {
      word, rest := "", line;
    } else {
      var more, tail := SplitsOff(line[1..]);
      word, rest := [line[0]] + more, tail;
      assert line == [line[0]] + line[1..];
    }
  }

  lemma WordsSplit(line: string, sha: string, orig: string, number: string, rest: string)
    requires StartsWithWords(line, sha, orig, number, rest)
    ensures var parts := Split(line, ' '); |parts| >= 3 && parts[0] == sha && parts[2] == number
  {
    hide Split;
    assert line == sha + [' '] + (orig + " " + number + rest);
    SplitOfConcat(sha, ' ', orig + " " + number + rest);
    assert orig + " " + number + rest == orig + [' '] + (number + rest);
    SplitOfConcat(orig, ' ', number + rest);
    if rest == "" {
      assert number + rest == number;
      SplitWithout(number, ' ');
    } else {
      assert number + rest == number + [' '] + rest[1..];
      SplitOfConcat(number, ' ', rest[1..]);
    }
  }

  lemma SplitWords(line: string) returns (sha: string, orig: string, number: string, rest: string)
    requires |Split(line, ' ')| >= 3
    ensures StartsWithWords(line, sha, orig, number, rest)
  {
    hide Split;
    var r0, r1;
    sha, r0 := SplitsOff(line);
    assert r0 == " " + r0[1..];
    orig, r1 := SplitsOff(r0[1..]);
    assert r1 == " " + r1[1..];
    number, rest := SplitsOff(r1[1..]);
    assert line == sha + (" " + (orig + (" " + (number + rest))));
  }

  /** Any line is read as a header of `sha` and `n` exactly when it starts with that sha in full, one more word
      and the number `n` of at most 32 bits. */
  lemma HeaderIff(line: string, sha: string, n: nat)
    ensures ParseHeaderLine(line) == Some(Header(sha, n))
            <==> IsFullSha(sha)
                 && exists orig, number, rest :: StartsWithWords(line, sha, orig, number, rest)
                      && ParseUnsigned(number, 0xFFFF_FFFF) == Some(n)
  {
    ShaIff(sha);
    hide IsSha, IsFullSha, ParseUnsigned, Split;
    if ParseHeaderLine(line) == Some(Header(sha, n)) {
      var first, orig, number, rest := SplitWords(line);
      WordsSplit(line, first, orig, number, rest);
    }
    if IsFullSha(sha) {
      forall orig, number, rest | StartsWithWords(line, sha, orig, number, rest)
        ensures var parts := Split(line, ' '); |parts| >= 3 && parts[0] == sha && parts[2] == number
      {
        WordsSplit(line, sha, orig, number, rest);
      }
    }
  }

  lemma AfterOneHeader(h: string, header: Header)
    requires IsHeader(h) && ParseHeaderLine(h) == Some(header)
    ensures Current([h]) == Some(header) && Results([h]) == [] && MetaOf([h], header.sha) == CommitMeta("", "", 0, "")
  {
    hide ParseHeaderLine;
    assert [h][..0] == [];
    assert Results([]) == [] && MetaOf([], header.sha) == UNKNOWN;
  }

  /** A content line under a header that told no details has none. */
  lemma BareHeaderTellsNothing(e: Entry)
    requires IsSha(e.sha) && e.finalLine <= U32_MAX
    ensures Results([HeaderText(e), "\t" + e.content])
         == [BlameLine(e.finalLine, e.sha, CommitMeta("", "", 0, ""))]
  {
    HeaderTextReads(e);
    hide ParseHeaderLine, HeaderText, IsHeader, MetaOf;
    var h := HeaderText(e);
    AfterOneHeader(h, Header(e.sha, e.finalLine));
    assert [h, "\t" + e.content][..1] == [h];
  }

  /** A time that is no number is read as zero. */
  lemma BadTimeIsZero(s: string)
    requires exists c :: c in Trim(s) && !IsDigit(c) && c != '+' && c != '-'
    ensures TimeOrZero(s) == 0
  {
    var t := Trim(s);
    var c :| c in t && !IsDigit(c) && c != '+' && c != '-';
    var i :| 0 <= i < |t| && t[i] == c;
    hide Trim;
    if i > 0 {
      assert t[1..][i - 1] == c;
    }
  }

  /** A line whose first word is not 40 characters long is no header. */
  lemma WordIsNoHeader(word: string, rest: string)
    requires ' ' !in word && |word| != 40
    ensures !IsHeader(word + " " + rest)
  {
    assert word + " " + rest == word + [' '] + rest;
    SplitOfConcat(word, ' ', rest);
  }

  /** `detail` is read, under the current header, as changing `before` into `after`. */
  predicate Reads(detail: string, before: CommitMeta, after: CommitMeta) {
    !IsContent(detail) && !IsHeader(detail) && Detail(before, detail) == after
  }

  lemma IgnorableReads(line: string, meta: CommitMeta)
    requires Ignorable(line)
    ensures Reads(line, meta, meta)
  {
    hide StripAngleBrackets, Trim, ParseSigned;
  }

  lemma AuthorReads(rest: string, meta: CommitMeta)
    ensures Reads("author " + rest, meta, meta.(author := Trim(rest)))
  {
    hide StripAngleBrackets, Trim, ParseSigned, Split;
    var line := "author " + rest;
    assert line == "author" + " " + rest;
    WordIsNoHeader("author", rest);
    assert line[6] == ' ' && line[0] == 'a';
    assert line[7..] == rest;
  }

  lemma MailReads(rest: string, meta: CommitMeta)
    ensures Reads("author-mail " + rest, meta, meta.(authorMail := StripAngleBrackets(rest)))
  {
    hide StripAngleBrackets, Trim, ParseSigned, Split;
    var line := "author-mail " + rest;
    assert line == "author-mail" + " " + rest;
    WordIsNoHeader("author-mail", rest);
    assert line[0] == 'a';
    assert line[12..] == rest;
  }

  lemma TimeTextReads(rest: string, meta: CommitMeta)
    ensures Reads("author-time " + rest, meta, meta.(authorTime := TimeOrZero(rest)))
  {
    hide StripAngleBrackets, Trim, TimeOrZero, Split;
    var line := "author-time " + rest;
    assert line == "author-time" + " " + rest;
    WordIsNoHeader("author-time", rest);
    assert line[0] == 'a' && line[7] == 't';
    assert line[12..] == rest;
  }

  lemma TimeReads(time: int, meta: CommitMeta)
    requires 0 - I64_LIMIT <= time < I64_LIMIT
    ensures Reads("author-time " + SignedDecimal(time), meta, meta.(authorTime := time))
  {
    hide Reads, Trim, ParseSigned, SignedDecimal;
    TimeTextReads(SignedDecimal(time), meta);
    ParseOfSignedDecimal(time, I64_LIMIT);
    TrimOfTrimmed(SignedDecimal(time));
  }

  lemma SummaryReads(rest: string, meta: CommitMeta)
    ensures Reads("summary " + rest, meta, meta.(summary := Trim(rest)))
  {
    hide StripAngleBrackets, Trim, ParseSigned, Split;
    var line := "summary " + rest;
    assert line == "summary" + " " + rest;
    WordIsNoHeader("summary", rest);
    assert line[0] == 's';
    assert line[8..] == rest;
  }

  lemma UnreadDetailsAreIgnorable(rest: string)
    ensures Ignorable("author-tz " + rest) && Ignorable("committer " + rest) && Ignorable("committer-mail " + rest)
    ensures Ignorable("committer-time " + rest) && Ignorable("committer-tz " + rest)
  {
    hide Ignorable;
    UnreadWordIsIgnorable("author-tz", "author-tz ", rest);
    UnreadWordIsIgnorable("committer", "committer ", rest);
    UnreadWordIsIgnorable("committer-mail", "committer-mail ", rest);
    UnreadWordIsIgnorable("committer-time", "committer-time ", rest);
    UnreadWordIsIgnorable("committer-tz", "committer-tz ", rest);
  }

  lemma UnreadWordIsIgnorable(word: string, start: string, rest: string)
    requires ' ' !in word && 1 < |word| < 40 && start == word + " "
    requires word[0] == 'c' || (|word| == 9 && word[0] == 'a' && word[6] == '-' && word[8] == 'z')
    ensures Ignorable(start + rest)
  {
    hide Split, IsHeader;
    var line := word + " " + rest;
    assert start + rest == line;
    WordIsNoHeader(word, rest);
    assert line[0] == word[0];
    if word[0] == 'a' {
      assert line[6] == '-' && line[8] == 'z';
    }
  }

  /** The lines git may print between a commit's details and the content. */
  lemma GitsOwnLinesAreIgnorable(rest: string)
    ensures Ignorable("filename " + rest) && Ignorable("previous " + rest) && Ignorable("boundary")
  {
    hide Split, IsHeader;
    assert "filename " + rest == "filename" + " " + rest && "previous " + rest == "previous" + " " + rest;
    WordIsNoHeader("filename", rest);
    WordIsNoHeader("previous", rest);
    assert ("filename" + " " + rest)[0] == 'f' && ("previous" + " " + rest)[0] == 'p';
    BoundaryIsNoHeader();
  }

  lemma BoundaryIsNoHeader()
    ensures !IsHeader("boundary")
  {
    SplitWithout("boundary", ' ');
  }

  // ----- the round trip -----

  lemma ReadHeader(lines: seq<string>, line: string, header: Header)
    requires IsHeader(line) && ParseHeaderLine(line) == Some(header)
    ensures Current(lines + [line]) == Some(header)
    ensures forall sha :: MetaOf(lines + [line], sha) == MetaOf(lines, sha)
    ensures Results(lines + [line]) == Results(lines)
  {
    hide ParseHeaderLine, Detail;
    assert (lines + [line])[..|lines|] == lines;
  }

  lemma ReadDetail(lines: seq<string>, line: string, header: Header, meta: CommitMeta)
    requires Current(lines) == Some(header)
    requires Reads(line, MetaOf(lines, header.sha), meta)
    ensures Current(lines + [line]) == Some(header)
    ensures forall sha :: MetaOf(lines + [line], sha) == if sha == header.sha then meta else MetaOf(lines, sha)
    ensures Results(lines + [line]) == Results(lines)
  {
    hide ParseHeaderLine, Detail;
    assert (lines + [line])[..|lines|] == lines;
  }

  lemma {:induction false} ReadIgnorables(lines: seq<string>, more: seq<string>, header: Header)
    requires Current(lines) == Some(header)
    requires forall i :: 0 <= i < |more| ==> Ignorable(more[i])
    ensures Current(lines + more) == Some(header)
    ensures forall sha :: MetaOf(lines + more, sha) == MetaOf(lines, sha)
    ensures Results(lines + more) == Results(lines)
  {
    hide Ignorable, Reads;
    if more == [] {
      assert lines + more == lines;
    } else {
      var front, last := more[..|more| - 1], more[|more| - 1];
      ReadIgnorables(lines, front, header);
      IgnorableReads(last, MetaOf(lines + front, header.sha));
      ReadDetail(lines + front, last, header, MetaOf(lines + front, header.sha));
      assert lines + front + [last] == lines + more;
    }
  }

  lemma ReadDetails(lines: seq<string>, header: Header, c: Commit)
    requires Current(lines) == Some(header) && MetaOf(lines, header.sha) == UNKNOWN
    requires 0 - I64_LIMIT <= c.meta.authorTime < I64_LIMIT
    ensures var after := lines + Details(c);
      && Current(after) == Some(header)
      && (forall sha :: MetaOf(after, sha) == if sha == header.sha then Normal(c.meta) else MetaOf(lines, sha))
      && Results(after) == Results(lines)
  {
    hide Reads, Current, MetaOf, Results, Ignorable, SignedDecimal, StripAngleBrackets, Trim;
    var d := Details(c);
    var m1 := UNKNOWN.(author := Trim(c.meta.author));
    AuthorReads(c.meta.author, UNKNOWN);
    ReadDetail(lines, d[0], header, m1);
    var l1 := lines + [d[0]];
    var m2 := m1.(authorMail := StripAngleBrackets("<" + c.meta.authorMail + ">"));
    MailReads("<" + c.meta.authorMail + ">", m1);
    assert d[1] == "author-mail " + ("<" + c.meta.authorMail + ">");
    ReadDetail(l1, d[1], header, m2);
    var l2 := l1 + [d[1]];
    var m3 := m2.(authorTime := c.meta.authorTime);
    TimeReads(c.meta.authorTime, m2);
    ReadDetail(l2, d[2], header, m3);
    var l3 := l2 + [d[2]];
    var unread := d[3..8];
    UnreadDetailsAreIgnorable(c.authorTz);
    UnreadDetailsAreIgnorable(c.committer);
    UnreadDetailsAreIgnorable(c.committerMail);
    UnreadDetailsAreIgnorable(c.committerTime);
    UnreadDetailsAreIgnorable(c.committerTz);
    ReadIgnorables(l3, unread, header);
    var l4 := l3 + unread;
    SummaryReads(c.meta.summary, m3);
    ReadDetail(l4, d[8], header, Normal(c.meta));
    assert l4 + [d[8]] == lines + d;
  }

  lemma ReadContent(lines: seq<string>, content: string, header: Header)
    requires Current(lines) == Some(header)
    ensures var after := lines + ["\t" + content];
      && Current(after) == Some(header)
      && (forall sha :: MetaOf(after, sha) == MetaOf(lines, sha))
      && Results(after) == Results(lines) + [Attributed(header, lines)]
  {
    hide ParseHeaderLine, Detail;
    var line := "\t" + content;
    assert (lines + [line])[..|lines|] == lines;
    assert IsContent(line);
  }

  /** Everything the reader holds after a printed log. */
  ghost predicate ReadBack(lines: seq<string>, entries: seq<Entry>, table: map<string, Commit>)
    requires ShasOf(entries) <= table.Keys
  {
    && Results(lines) == Expected(entries, table)
    && forall sha :: MetaOf(lines, sha) == if sha in ShasOf(entries) then Normal(table[sha].meta) else UNKNOWN
  }

  lemma ShasOfFront(entries: seq<Entry>)
    requires entries != []
    ensures ShasOf(entries) == ShasOf(entries[..|entries| - 1]) + {entries[|entries| - 1].sha}
  {
    assert entries == entries[..|entries| - 1] + [entries[|entries| - 1]];
  }

  /** One more printed entry is read back after whatever the ones before it left. */
  lemma OneMoreReadsBack(lines: seq<string>, entries: seq<Entry>, table: map<string, Commit>)
    requires entries != [] && ShasOf(entries) <= table.Keys
    requires Printable(entries[|entries| - 1], table)
    requires var front := entries[..|entries| - 1]; ShasOf(front) <= table.Keys && ReadBack(lines, front, table)
    ensures var front, e := entries[..|entries| - 1], entries[|entries| - 1];
      ReadBack(lines + [HeaderText(e)] + (if e.sha in ShasOf(front) then [] else Details(table[e.sha])) + e.extras
               + ["\t" + e.content], entries, table)
  {
    hide HeaderText, Details, Current, MetaOf, Results, IsHeader, ParseHeaderLine, Normal, Ignorable;
    var front, e := entries[..|entries| - 1], entries[|entries| - 1];
    ShasOfFront(entries);
    var header := Header(e.sha, e.finalLine);
    HeaderTextReads(e);
    var l1 := lines + [HeaderText(e)];
    ReadHeader(lines, HeaderText(e), header);
    var l2 := l1 + (if e.sha in ShasOf(front) then [] else Details(table[e.sha]));
    if e.sha in ShasOf(front) {
      assert l2 == l1;
    } else {
      ReadDetails(l1, header, table[e.sha]);
    }
    ReadIgnorables(l2, e.extras, header);
    ReadContent(l2 + e.extras, e.content, header);
  }

  lemma {:induction false} PrintReadsBack(entries: seq<Entry>, table: map<string, Commit>)
    requires ShasOf(entries) <= table.Keys
    requires forall i :: 0 <= i < |entries| ==> Printable(entries[i], table)
    ensures ReadBack(Print(entries, table), entries, table)
  {
    hide ReadBack, Printable, HeaderText, Details;
    if entries == [] {
      NothingReadBack(table);
    } else {
      var front := entries[..|entries| - 1];
      ShasOfFront(entries);
      PrintReadsBack(front, table);
      OneMoreReadsBack(Print(front, table), entries, table);
    }
  }

  lemma NothingReadBack(table: map<string, Commit>)
    ensures ReadBack([], [], table)
  {
  }

  /** Printing a file's attribution in porcelain form, whatever the order in which its commits appear,
      and parsing it gives it back, with each commit's texts trimmed. */
  lemma RoundTrip(entries: seq<Entry>, table: map<string, Commit>)
    requires ShasOf(entries) <= table.Keys
    requires forall i :: 0 <= i < |entries| ==> Printable(entries[i], table)
    ensures Results(Print(entries, table)) == Expected(entries, table)
  {
    PrintReadsBack(entries, table);
  }

  lemma StripAngleBracketsIsInverseIff(mail: string)
    ensures StripAngleBrackets("<" + mail + ">") == mail
            <==> (mail != "" ==> mail[0] != '<' && mail[|mail| - 1] != '>')
  {
    var raw := "<" + mail + ">";
    TrimOfTrimmed(raw);
    assert raw[1..] == mail + ">";
    assert TrimStartChar(raw, '<') == TrimStartChar(mail + ">", '<');
    if mail != "" && mail[0] == '<' {
      assert (mail + ">")[1..] == mail[1..] + ">";
      var open := TrimStartChar(mail[1..] + ">", '<');
      assert TrimStartChar(mail + ">", '<') == open && |open| <= |mail|;
      assert TrimEndChar(open, '>') == TrimEndChar(open[..|open| - 1], '>');
    } else {
      assert TrimStartChar(mail + ">", '<') == mail + ">";
      assert (mail + ">")[..|mail|] == mail;
      assert TrimEndChar(mail + ">", '>') == TrimEndChar(mail, '>');
    }
  }

  /** The texts are trimmed, and the address has no angle brackets of its own at the ends. */
  predicate Clean(meta: CommitMeta) {
    && Trimmed(meta.author) && Trimmed(meta.summary)
    && (meta.authorMail != "" ==> meta.authorMail[0] != '<' && meta.authorMail[|meta.authorMail| - 1] != '>')
  }

  /** A commit's details are read back unchanged exactly when they are clean. */
  lemma NormalIsIdentityIff(meta: CommitMeta)
    ensures Normal(meta) == meta <==> Clean(meta)
  {
    TrimKeepsIffTrimmed(meta.author);
    TrimKeepsIffTrimmed(meta.summary);
    StripAngleBracketsIsInverseIff(meta.authorMail);
  }

  /** The attribution that was printed. */
  function Attribution(entries: seq<Entry>, table: map<string, Commit>): (out: seq<BlameLine>)
    requires ShasOf(entries) <= table.Keys
    ensures |out| == |entries|
  {
    seq(|entries|, i requires 0 <= i < |entries| =>
      assert entries[i] in entries;
      BlameLine(entries[i].finalLine, entries[i].sha, table[entries[i].sha].meta))
  }

  /** An attribution printed and parsed comes back exactly when the details of every commit in it are clean. */
  lemma RoundTripIff(entries: seq<Entry>, table: map<string, Commit>)
    requires ShasOf(entries) <= table.Keys
    requires forall i :: 0 <= i < |entries| ==> Printable(entries[i], table)
    ensures Results(Print(entries, table)) == Attribution(entries, table)
            <==> forall sha :: sha in ShasOf(entries) ==> Clean(table[sha].meta)
  {
    hide Results, Print, Printable, Normal, Clean;
    RoundTrip(entries, table);
    var read, said := Expected(entries, table), Attribution(entries, table);
    forall i | 0 <= i < |entries| ensures entries[i].sha in ShasOf(entries) {
      assert entries[i] in entries;
    }
    forall i | 0 <= i < |entries| ensures read[i] == said[i] <==> Clean(table[entries[i].sha].meta) {
      NormalIsIdentityIff(table[entries[i].sha].meta);
    }
    if forall sha :: sha in ShasOf(entries) ==> Clean(table[sha].meta) {
      assert read == said;
    }
    if read == said {
      forall sha | sha in ShasOf(entries) ensures Clean(table[sha].meta) {
        var i :| 0 <= i < |entries| && entries[i].sha == sha;
        assert read[i] == said[i];
      }
    }
  }

  const SHA := seq(40, i => '0')

  /** One line by an author whose name begins with a blank: it is read back without the blank. */
  lemma BlankBeforeTheNameIsLost()
    ensures var meta := CommitMeta(" a", "m", 0, "s");
      var entries, table := [Entry(SHA, 1, 1, Some(1), [], "")], map[SHA := Commit(meta, "", "", "", "", "")];
      && ShasOf(entries) <= table.Keys && Printable(entries[0], table)
      && Results(Print(entries, table)) == [BlameLine(1, SHA, meta.(author := "a"))]
  {
    var meta := CommitMeta(" a", "m", 0, "s");
    var entries, table := [Entry(SHA, 1, 1, Some(1), [], "")], map[SHA := Commit(meta, "", "", "", "", "")];
    assert ShasOf(entries) == {SHA};
    assert Printable(entries[0], table);
    RoundTrip(entries, table);
    assert Normal(meta) == meta.(author := "a") by {
      assert Trim(" a") == "a" by { assert " a"[1..] == "a"; TrimOfTrimmed("a"); }
      TrimOfTrimmed("s");
      StripAngleBracketsIsInverseIff("m");
    }
    hide Results, Print, Normal;
    assert Expected(entries, table) == [BlameLine(1, SHA, Normal(meta))];
  }

  // ----- the program itself -----

  method ParsePorcelainBlame(porcelain: seq<string>) returns (result: seq<BlameLine>)
    ensures result == Results(porcelain)
  {
    hide ParseHeaderLine, Detail, IsContent;
    var commits: map<string, CommitMeta> := map[];
    result := [];
    var current: Option<Header> := None;
    for i := 0 to |porcelain|
      invariant current == Current(porcelain[..i])
      invariant forall sha :: (if sha in commits then commits[sha] else UNKNOWN) == MetaOf(porcelain[..i], sha)
      invariant result == Results(porcelain[..i])
    {
      var line := porcelain[i];
      assert porcelain[..i + 1][..i] == porcelain[..i];
      if IsContent(line) {
        if current.Some? {
          var meta := if current.value.sha in commits then commits[current.value.sha] else UNKNOWN;
          result := result + [BlameLine(current.value.finalLine, current.value.sha, meta)];
        }
        continue;
      }
      var header := ParseHeaderLine(line);
      if header.Some? {
        if header.value.sha !in commits {
          commits := commits[header.value.sha := UNKNOWN];
        }
        current := header;
        continue;
      }
      if current.None? {
        continue;
      }
      var sha := current.value.sha;
      var meta := if sha in commits then commits[sha] else UNKNOWN;
      commits := commits[sha := Detail(meta, line)];
    }
    assert porcelain[..|porcelain|] == porcelain;
  }
}
