/** `summarizeFileResults`: sensor results grouped and cut to a byte budget, with the
    size of the JSON that will be stored accounted for in constant time per entry. */
module DetailBudget {
  import opened Wrappers

  // ------------------------------------------------------------ JSON text

  /** UTF-8 bytes of one character. */
  function Utf8(c: char): nat {
    var n := c as int;
    if n < 0x80 then 1 else if n < 0x800 then 2 else if n < 0x1_0000 then 3 else 4
  }

  function Bytes(s: string): nat {
    if s == "" then 0 else Utf8(s[0]) + Bytes(s[1..])
  }

  function Hex(n: nat): char
    requires n < 16
  {
    "0123456789abcdef"[n]
  }

  /** One character inside a JSON string. */
  function Escaped(c: char): string {
    match c
    case '"' => "\\\""
    case '\\' => "\\\\"
    case '\n' => "\\n"
    case '\r' => "\\r"
    case '\t' => "\\t"
    case _ =>
      if c == '\U{08}' then "\\b"
      else if c == '\U{0C}' then "\\f"
      else if c < ' ' then "\\u00" + [Hex(c as int / 16), Hex(c as int % 16)]
      else [c]
  }

  function EscapedAll(s: string): string {
    if s == "" then "" else Escaped(s[0]) + EscapedAll(s[1..])
  }

  function Quote(s: string): string { "\"" + EscapedAll(s) + "\"" }

  function Decimal(n: nat): (s: string)
    ensures |s| >= 1 && forall i :: 0 <= i < |s| ==> '0' <= s[i] <= '9'
  {
    var last := ('0' as int + n % 10) as char;
    if n < 10 then [last] else Decimal(n / 10) + [last]
  }

  /** The fewest bytes whose payload holds the code point: 7 bits in one byte, and 5, 4 or 3
      bits before six in each byte that follows. */
  lemma FewestBytes(c: char)
    ensures var n, k := c as int, Utf8(c);
            && 1 <= k <= 4
            && (k == 1 ==> n < 128)
            && (k == 2 ==> 128 <= n < 32 * 64)
            && (k == 3 ==> 32 * 64 <= n < 16 * 64 * 64)
            && (k == 4 ==> 16 * 64 * 64 <= n < 8 * 64 * 64 * 64)
  {}

  predicate HexDigit(c: char) { '0' <= c <= '9' || 'a' <= c <= 'f' }

  function HexValue(c: char): nat
    requires HexDigit(c)
  {
    if c <= '9' then c as int - 48 else c as int - 87
  }

  /** One character of a JSON string and how far it reaches, as section 7 of RFC 8259 reads it;
      no code point of more than two hexadecimal digits is written here. */
  function ReadChar(t: string): Option<(char, nat)> {
    if t == "" || t[0] == '"' || t[0] < ' ' then None
    else if t[0] != '\\' then Some((t[0], 1))
    else if |t| < 2 then None
    else match t[1]
      case '"' => Some(('"', 2))
      case '\\' => Some(('\\', 2))
      case '/' => Some(('/', 2))
      case 'b' => Some((8 as char, 2))
      case 'f' => Some((12 as char, 2))
      case 'n' => Some((10 as char, 2))
      case 'r' => Some((13 as char, 2))
      case 't' => Some((9 as char, 2))
      case 'u' =>
        if |t| >= 6 && t[2] == t[3] == '0' && HexDigit(t[4]) && HexDigit(t[5]) then Some(((16 * HexValue(t[4]) + HexValue(t[5])) as char, 6))
        else None
      case _ => None
  }

  lemma ReadCharShort(t: string)
    requires ReadChar(t).Some?
    ensures 1 <= ReadChar(t).value.1 <= |t|
  {}

  /** What a string says up to its closing quote, and the text behind it. */
  function ReadString(t: string): Option<(string, string)>
    decreases |t|
  {
    if t == "" then None
    else if t[0] == '"' then Some(("", t[1..]))
    else match ReadChar(t)
      case None => None
      case Some((c, n)) =>
        ReadCharShort(t);
        match ReadString(t[n..])
        case None => None
        case Some((s, rest)) => Some(([c] + s, rest))
  }

  lemma EscapedReads(c: char, rest: string)
    ensures ReadChar(Escaped(c) + rest) == Some((c, |Escaped(c)|)) && Escaped(c)[0] != '"'
  {
    var t := Escaped(c) + rest;
    if c < ' ' && c !in {'\n', '\r', '\t', '\U{08}', '\U{0C}'} {
      var high, low := c as int / 16, c as int % 16;
      HexReads(high);
      HexReads(low);
      assert Escaped(c) == "\\u00" + [Hex(high), Hex(low)];
      assert t[4] == Hex(high) && t[5] == Hex(low);
    }
  }

  lemma HexReads(n: nat)
    requires n < 16
    ensures HexDigit(Hex(n)) && HexValue(Hex(n)) == n
  {}

  lemma OneMoreReads(c: char, more: string, s: string, rest: string)
    requires ReadString(more) == Some((s, rest))
    ensures ReadString(Escaped(c) + more) == Some(([c] + s, rest))
  {
    EscapedReads(c, more);
    var t := Escaped(c) + more;
    assert t[0] == Escaped(c)[0] && t[|Escaped(c)|..] == more;
  }

  lemma {:induction false} EscapedAllReads(s: string, end: string, rest: string)
    requires end != "" && end[0] == '"' && end[1..] == rest
    ensures ReadString(EscapedAll(s) + end) == Some((s, rest))
  {
    if s == "" {
      assert EscapedAll(s) + end == end;
    } else {
      EscapedAllReads(s[1..], end, rest);
      OneMoreReads(s[0], EscapedAll(s[1..]) + end, s[1..], rest);
      Regrouped(Escaped(s[0]), EscapedAll(s[1..]), end);
      HeadAndTail(s);
    }
  }

  lemma Regrouped(a: string, b: string, c: string)
    ensures (a + b) + c == a + (b + c)
  {}

  lemma HeadAndTail(s: string)
    requires s != ""
    ensures [s[0]] + s[1..] == s
  {}

  /** A quoted string reads back, whatever follows it. */
  lemma QuoteReads(s: string, rest: string)
    ensures Quote(s)[0] == '"' && ReadString(Quote(s)[1..] + rest) == Some((s, rest))
  {
    EscapedAllReads(s, "\"" + rest, rest);
    BehindTheQuote(EscapedAll(s), rest);
  }

  lemma BehindTheQuote(text: string, rest: string)
    ensures ("\"" + text + "\"")[0] == '"' && ("\"" + text + "\"")[1..] + rest == text + ("\"" + rest)
  {}

  function Value(digits: string): nat
    requires forall i :: 0 <= i < |digits| ==> '0' <= digits[i] <= '9'
  {
    if digits == "" then 0 else 10 * Value(digits[..|digits| - 1]) + (digits[|digits| - 1] as int - 48)
  }

  /** Numbers are written in base ten, without leading zeros. */
  lemma {:induction false} DecimalReads(n: nat)
    ensures Value(Decimal(n)) == n && (n > 0 ==> Decimal(n)[0] != '0')
  {
    var s := Decimal(n);
    if n >= 10 {
      DecimalReads(n / 10);
      assert s[..|s| - 1] == Decimal(n / 10);
    } else {
      assert s[..0] == "";
    }
  }

  function Integer(n: int): string { if n < 0 then "-" + Decimal(-n) else Decimal(n) }

  function Joined(texts: seq<string>): string {
    if texts == [] then ""
    else if |texts| == 1 then texts[0]
    else Joined(texts[..|texts| - 1]) + "," + texts[|texts| - 1]
  }

  function ArrayText(texts: seq<string>): string { "[" + Joined(texts) + "]" }

  function Member(key: string, value: string): string { Quote(key) + ":" + value }

  function ObjectText(members: seq<string>): string { "{" + Joined(members) + "}" }

  lemma {:induction false} BytesConcat(a: string, b: string)
    ensures Bytes(a + b) == Bytes(a) + Bytes(b)
  {
    if a == "" {
      assert a + b == b;
    } else {
      assert (a + b)[1..] == a[1..] + b;
      BytesConcat(a[1..], b);
    }
  }

  function Total(texts: seq<string>): nat {
    if texts == [] then 0 else Total(texts[..|texts| - 1]) + Bytes(texts[|texts| - 1])
  }

  function Commas(n: nat): nat { if n == 0 then 0 else n - 1 }

  lemma {:induction false} BytesJoined(texts: seq<string>)
    ensures Bytes(Joined(texts)) == Total(texts) + Commas(|texts|)
  {
    if |texts| == 1 {
      assert texts[..0] == [];
      assert Total(texts[..0]) == 0;
    } else if |texts| > 1 {
      var before, last := texts[..|texts| - 1], texts[|texts| - 1];
      BytesJoined(before);
      BytesConcat(Joined(before) + ",", last);
      BytesConcat(Joined(before), ",");
      assert Bytes(",") == 1;
    }
  }

  lemma BytesBracketed(open: string, texts: seq<string>, close: string)
    requires open in {"[", "{"} && close in {"]", "}"}
    ensures Bytes(open + Joined(texts) + close) == 2 + Total(texts) + Commas(|texts|)
  {
    BytesJoined(texts);
    BytesConcat(open + Joined(texts), close);
    BytesConcat(open, Joined(texts));
    assert Bytes(open) == 1 && Bytes(close) == 1;
  }

  lemma {:induction false} BytesOfAscii(s: string)
    requires forall i :: 0 <= i < |s| ==> s[i] < '\U{80}'
    ensures Bytes(s) == |s|
  {
    if s != "" { BytesOfAscii(s[1..]); }
  }

  // --------------------------------------------------------------- results

  datatype Reason = ScriptError | ToolUnavailable | Other(text: string)

  function ReasonText(r: Reason): string {
    match r case ScriptError => "script-error" case ToolUnavailable => "tool-unavailable" case Other(text) => text
  }

  /** A redacted diagnostic: what grouping reads, and its JSON text. */
  datatype Diagnostic = Diagnostic(reason: Option<Reason>, exitCode: Option<int>, stderr: Option<string>, json: string)

  datatype FileResult = FileResult(file: string, result: string, timedOut: bool, detail: Option<Diagnostic>)

  datatype Group = Group(reason: Reason, result: string, exitCode: Option<int>, stderr: Option<string>, fileCount: nat, sampleFiles: seq<string>)

  const SAMPLE_FILES: nat := 5

  const DETAIL_BUDGET_BYTES: nat := 120_000

  /** The property names of the stored detail, and the reason it gives for omitting. */
  datatype Names = Names(groups: string, files: string, omitted: string, reason: string, why: string)

  const NAMES: Names := Names("harnessFailures", "files", "filesOmitted", "omissionReason", "detail size budget")

  predicate HarnessFailure(r: FileResult) {
    r.detail.Some? && r.detail.value.reason.Some? && !r.detail.value.reason.value.Other?
  }

  /** What failures are grouped by; a missing stderr counts as an empty one. */
  datatype Key = Key(reason: Reason, exitCode: Option<int>, stderr: string)

  function Or(o: Option<string>): string { if o.Some? then o.value else "" }

  function KeyOf(r: FileResult): Key
    requires HarnessFailure(r)
  {
    var d := r.detail.value;
    Key(d.reason.value, d.exitCode, Or(d.stderr))
  }

  function GroupKey(g: Group): Key { Key(g.reason, g.exitCode, Or(g.stderr)) }

  function FirstGroup(r: FileResult): Group
    requires HarnessFailure(r)
  {
    var d := r.detail.value;
    Group(d.reason.value, r.result, d.exitCode, d.stderr, 1, [r.file])
  }

  function Another(g: Group, file: string): Group {
    g.(fileCount := g.fileCount + 1, sampleFiles := if |g.sampleFiles| < SAMPLE_FILES then g.sampleFiles + [file] else g.sampleFiles)
  }

  // ------------------------------------------------- independent definitions

  /** The failures with a key, in order. */
  function Failures(results: seq<FileResult>, k: Key): (r: seq<string>)
    ensures |r| <= |results|
  {
    if results == [] then []
    else
      var before, last := results[..|results| - 1], results[|results| - 1];
      Failures(before, k) + if HarnessFailure(last) && KeyOf(last) == k then [last.file] else []
  }

  /** The keys in the order in which they were first seen. */
  function Keys(results: seq<FileResult>): seq<Key> {
    if results == [] then []
    else
      var last, keys := results[|results| - 1], Keys(results[..|results| - 1]);
      if HarnessFailure(last) && KeyOf(last) !in keys then keys + [KeyOf(last)] else keys
  }

  ghost predicate Distinct(keys: seq<Key>) { forall i, j :: 0 <= i < j < |keys| ==> keys[i] != keys[j] }

  /** Every failure has its key among the keys, and no key is there twice. */
  lemma {:induction false} KeysAreDistinct(results: seq<FileResult>)
    ensures Distinct(Keys(results))
    ensures forall i :: 0 <= i < |results| && HarnessFailure(results[i]) ==> KeyOf(results[i]) in Keys(results)
  {
    if results != [] {
      var before, last := results[..|results| - 1], results[|results| - 1];
      KeysAreDistinct(before);
      forall i | 0 <= i < |results| && HarnessFailure(results[i]) ensures KeyOf(results[i]) in Keys(results) {
        if i < |before| { assert before[i] == results[i]; }
      }
    }
  }

  /** Everything that is no harness failure, in order. */
  function Files(results: seq<FileResult>): seq<FileResult> {
    if results == [] then []
    else
      var before, last := results[..|results| - 1], results[|results| - 1];
      Files(before) + if HarnessFailure(last) then [] else [last]
  }

  function FirstOf(files: seq<string>): seq<string> { if |files| <= 5 then files else files[..5] }

  ghost predicate Stands(g: Group, results: seq<FileResult>, k: Key) {
    var failures := Failures(results, k);
    GroupKey(g) == k && g.fileCount == |failures| > 0 && g.sampleFiles == FirstOf(failures)
  }

  /** One group a key, with the number of its failures and the first few files. */
  ghost predicate GroupedBy(groups: seq<Group>, results: seq<FileResult>, keys: seq<Key>) {
    && |groups| == |keys|
    && forall i :: 0 <= i < |groups| ==> Stands(groups[i], results, keys[i])
  }

  function Sum(groups: seq<Group>): nat {
    if groups == [] then 0 else Sum(groups[..|groups| - 1]) + groups[|groups| - 1].fileCount
  }

  /** Where a key stands among the groups. */
  ghost predicate Indexes(index: map<Key, nat>, keys: seq<Key>) {
    && (forall k :: k in index ==> index[k] < |keys| && keys[index[k]] == k)
    && (forall i :: 0 <= i < |keys| ==> keys[i] in index)
  }

  lemma Pushed(results: seq<FileResult>, r: FileResult, k: Key)
    ensures Failures(results + [r], k) == Failures(results, k) + if HarnessFailure(r) && KeyOf(r) == k then [r.file] else []
    ensures Keys(results + [r]) == if HarnessFailure(r) && KeyOf(r) !in Keys(results) then Keys(results) + [KeyOf(r)] else Keys(results)
    ensures Files(results + [r]) == Files(results) + if HarnessFailure(r) then [] else [r]
  {
    assert (results + [r])[..|results|] == results;
  }

  /** A result that does not touch a group's key leaves the group standing. */
  lemma StillStands(g: Group, results: seq<FileResult>, r: FileResult, k: Key)
    requires Stands(g, results, k) && !(HarnessFailure(r) && KeyOf(r) == k)
    ensures Stands(g, results + [r], k)
  {
    Pushed(results, r, k);
  }

  lemma OneMoreStands(g: Group, results: seq<FileResult>, r: FileResult)
    requires HarnessFailure(r) && Stands(g, results, KeyOf(r))
    ensures Stands(Another(g, r.file), results + [r], KeyOf(r))
  {
    Pushed(results, r, KeyOf(r));
    FirstOfMore(Failures(results, KeyOf(r)), r.file);
  }

  lemma FirstStands(results: seq<FileResult>, r: FileResult)
    requires HarnessFailure(r) && KeyOf(r) !in Keys(results)
    ensures Stands(FirstGroup(r), results + [r], KeyOf(r))
  {
    NoFailures(results, KeyOf(r));
    Pushed(results, r, KeyOf(r));
  }

  lemma FirstOfMore(files: seq<string>, file: string)
    ensures FirstOf(files + [file]) == if |FirstOf(files)| < SAMPLE_FILES then FirstOf(files) + [file] else FirstOf(files)
  {}

  lemma NewKey(groups: seq<Group>, results: seq<FileResult>, keys: seq<Key>, r: FileResult)
    requires keys == Keys(results) && GroupedBy(groups, results, keys) && HarnessFailure(r) && KeyOf(r) !in keys
    ensures GroupedBy(groups + [FirstGroup(r)], results + [r], keys + [KeyOf(r)])
  {
    FirstStands(results, r);
    forall i | 0 <= i < |groups| ensures Stands(groups[i], results + [r], keys[i]) {
      StillStands(groups[i], results, r, keys[i]);
    }
  }

  lemma OldKey(groups: seq<Group>, results: seq<FileResult>, keys: seq<Key>, r: FileResult, i: nat)
    requires GroupedBy(groups, results, keys) && Distinct(keys) && HarnessFailure(r) && i < |groups| && keys[i] == KeyOf(r)
    ensures GroupedBy(groups[i := Another(groups[i], r.file)], results + [r], keys)
  {
    OneMoreStands(groups[i], results, r);
    forall j | 0 <= j < |groups| && j != i ensures Stands(groups[j], results + [r], keys[j]) {
      StillStands(groups[j], results, r, keys[j]);
    }
  }

  lemma NoKey(groups: seq<Group>, results: seq<FileResult>, keys: seq<Key>, r: FileResult)
    requires GroupedBy(groups, results, keys) && !HarnessFailure(r)
    ensures GroupedBy(groups, results + [r], keys)
  {
    forall i | 0 <= i < |groups| ensures Stands(groups[i], results + [r], keys[i]) {
      StillStands(groups[i], results, r, keys[i]);
    }
  }

  lemma {:induction false} NoFailures(results: seq<FileResult>, k: Key)
    requires k !in Keys(results)
    ensures Failures(results, k) == []
  {
    if results != [] {
      var before, last := results[..|results| - 1], results[|results| - 1];
      NoFailures(before, k);
    }
  }

  lemma {:induction false} SumUpdate(groups: seq<Group>, i: nat, g: Group)
    requires i < |groups|
    ensures Sum(groups[i := g]) == Sum(groups) - groups[i].fileCount + g.fileCount
  {
    var n := |groups| - 1;
    if i < n {
      assert groups[i := g][..n] == groups[..n][i := g];
      SumUpdate(groups[..n], i, g);
    } else {
      assert groups[i := g][..n] == groups[..n];
    }
  }

  /** What the grouping loop has collected from the results so far. */
  datatype Collected = Collected(groups: seq<Group>, files: seq<FileResult>, index: map<Key, nat>)

  ghost predicate Collects(c: Collected, results: seq<FileResult>) {
    && GroupedBy(c.groups, results, Keys(results)) && Indexes(c.index, Keys(results))
    && c.files == Files(results) && Sum(c.groups) + |c.files| == |results|
  }

  lemma CollectFile(c: Collected, results: seq<FileResult>, r: FileResult)
    requires Collects(c, results) && !HarnessFailure(r)
    ensures Collects(c.(files := c.files + [r]), results + [r])
  {
    Pushed(results, r, Key(ScriptError, None, ""));
    NoKey(c.groups, results, Keys(results), r);
  }

  lemma CollectAnother(c: Collected, results: seq<FileResult>, r: FileResult)
    requires Collects(c, results) && HarnessFailure(r) && KeyOf(r) in c.index
    ensures var i := c.index[KeyOf(r)];
            i < |c.groups| && Collects(c.(groups := c.groups[i := Another(c.groups[i], r.file)]), results + [r])
  {
    var i := c.index[KeyOf(r)];
    Pushed(results, r, Key(ScriptError, None, ""));
    KeysAreDistinct(results);
    OldKey(c.groups, results, Keys(results), r, i);
    SumUpdate(c.groups, i, Another(c.groups[i], r.file));
  }

  lemma CollectFirst(c: Collected, results: seq<FileResult>, r: FileResult)
    requires Collects(c, results) && HarnessFailure(r) && KeyOf(r) !in c.index
    ensures Collects(c.(groups := c.groups + [FirstGroup(r)], index := c.index[KeyOf(r) := |c.groups|]), results + [r])
  {
    Pushed(results, r, Key(ScriptError, None, ""));
    NewKey(c.groups, results, Keys(results), r);
    IndexesMore(c.index, Keys(results), KeyOf(r), c.index[KeyOf(r) := |c.groups|]);
    assert (c.groups + [FirstGroup(r)])[..|c.groups|] == c.groups;
  }

  lemma IndexesMore(index: map<Key, nat>, keys: seq<Key>, k: Key, after: map<Key, nat>)
    requires Indexes(index, keys) && k !in index && after == index[k := |keys|]
    ensures Indexes(after, keys + [k]) && k !in keys
  {}

  method CollectOne(c: Collected, r: FileResult, ghost seen: seq<FileResult>) returns (more: Collected)
    requires Collects(c, seen)
    ensures Collects(more, seen + [r])
  {
    if !HarnessFailure(r) {
      CollectFile(c, seen, r);
      more := c.(files := c.files + [r]);
    } else if KeyOf(r) in c.index {
      CollectAnother(c, seen, r);
      var i := c.index[KeyOf(r)];
      more := c.(groups := c.groups[i := Another(c.groups[i], r.file)]);
    } else {
      CollectFirst(c, seen, r);
      more := c.(groups := c.groups + [FirstGroup(r)], index := c.index[KeyOf(r) := |c.groups|]);
    }
  }

  /** The grouping loop: groups in first-seen order, and the other results. */
  method GroupResults(results: seq<FileResult>) returns (c: Collected)
    ensures Collects(c, results)
  {
    c := Collected([], [], map[]);
    for n := 0 to |results|
      invariant Collects(c, results[..n])
    {
      c := CollectOne(c, results[n], results[..n]);
      assert results[..n] + [results[n]] == results[..n + 1];
    }
    assert results[..|results|] == results;
  }

  // ---------------------------------------------------------- the budget

  function OptionalInteger(o: Option<int>): string { if o.Some? then Integer(o.value) else "null" }

  function OptionalString(o: Option<string>): string { if o.Some? then Quote(o.value) else "null" }

  function Quoted(texts: seq<string>): seq<string> {
    if texts == [] then [] else Quoted(texts[..|texts| - 1]) + [Quote(texts[|texts| - 1])]
  }

  function GroupText(g: Group): string {
    ObjectText([
      Member("reason", Quote(ReasonText(g.reason))), Member("result", Quote(g.result)),
      Member("exitCode", OptionalInteger(g.exitCode)), Member("stderr", OptionalString(g.stderr)),
      Member("fileCount", Decimal(g.fileCount)), Member("sampleFiles", ArrayText(Quoted(g.sampleFiles)))])
  }

  function FileText(r: FileResult): string {
    ObjectText(
      [Member("file", Quote(r.file)), Member("result", Quote(r.result)), Member("timedOut", if r.timedOut then "true" else "false")]
      + if r.detail.Some? then [Member("detail", r.detail.value.json)] else [])
  }

  /** A candidate for the stored detail: its text, and how many files it stands for. */
  datatype Item = Item(group: bool, text: string, files: nat)

  function GroupItem(g: Group): Item { Item(true, GroupText(g), g.fileCount) }

  function FileItem(r: FileResult): Item { Item(false, FileText(r), 1) }

  function ItemsOf<T>(entries: seq<T>, item: T -> Item): (r: seq<Item>)
    ensures |r| == |entries|
  {
    if entries == [] then [] else ItemsOf(entries[..|entries| - 1], item) + [item(entries[|entries| - 1])]
  }

  lemma {:induction false} ItemAt<T>(entries: seq<T>, item: T -> Item, i: nat)
    requires i < |entries|
    ensures ItemsOf(entries, item)[i] == item(entries[i])
  {
    if i < |entries| - 1 { ItemAt(entries[..|entries| - 1], item, i); }
  }

  function GroupItems(groups: seq<Group>): seq<Item> { ItemsOf(groups, GroupItem) }

  function FileItems(files: seq<FileResult>): seq<Item> { ItemsOf(files, FileItem) }

  /** Texts of the items of one kind. */
  function Texts(items: seq<Item>, group: bool): seq<string> {
    if items == [] then []
    else
      var last := items[|items| - 1];
      Texts(items[..|items| - 1], group) + if last.group == group then [last.text] else []
  }

  function FilesOf(items: seq<Item>): nat {
    if items == [] then 0 else FilesOf(items[..|items| - 1]) + items[|items| - 1].files
  }

  /** The stored detail: the included items and what was omitted. */
  function Members(names: Names, included: seq<Item>, omitted: nat): seq<string> {
    ArrayMember(names.groups, Texts(included, true)) + ArrayMember(names.files, Texts(included, false)) + Omission(names, omitted)
  }

  function DetailText(names: Names, included: seq<Item>, omitted: nat): string { ObjectText(Members(names, included, omitted)) }

  datatype Size = Size(groupCount: nat, groupBytes: nat, fileCount: nat, fileBytes: nat)

  function KeyBytes(key: string): nat { Bytes(Quote(key)) }

  function ArrayLength(count: nat, contentBytes: nat): nat { 2 + contentBytes + Commas(count) }

  /** The constant-time account, with the running property count of the source. */
  method SummarizedDetailByteLength(names: Names, size: Size, omitted: nat) returns (bytes: nat)
    ensures bytes == AccountedLength(names, size, omitted)
  {
    var properties := 0;
    bytes := 2;
    if size.groupCount > 0 {
      bytes, properties := bytes + KeyBytes(names.groups) + 1 + ArrayLength(size.groupCount, size.groupBytes), 1;
    }
    if size.fileCount > 0 {
      if properties > 0 { bytes := bytes + 1; }
      bytes, properties := bytes + KeyBytes(names.files) + 1 + ArrayLength(size.fileCount, size.fileBytes), properties + 1;
    }
    if omitted > 0 {
      if properties > 0 { bytes := bytes + 1; }
      bytes := bytes + KeyBytes(names.omitted) + 1 + |Decimal(omitted)|;
      bytes := bytes + 1 + KeyBytes(names.reason) + 1 + Bytes(Quote(names.why));
    }
  }

  function AccountedLength(names: Names, size: Size, omitted: nat): nat {
    var groups := if size.groupCount > 0 then KeyBytes(names.groups) + 1 + ArrayLength(size.groupCount, size.groupBytes) else 0;
    var files := if size.fileCount > 0 then KeyBytes(names.files) + 1 + ArrayLength(size.fileCount, size.fileBytes) else 0;
    var rest := if omitted > 0 then KeyBytes(names.omitted) + 1 + |Decimal(omitted)| + KeyBytes(names.reason) + 1 + Bytes(Quote(names.why)) else 0;
    2 + groups + files + rest
    + Commas((if size.groupCount > 0 then 1 else 0) + (if size.fileCount > 0 then 1 else 0) + (if omitted > 0 then 2 else 0))
  }

  function Added(size: Size, item: Item): Size {
    if item.group then size.(groupCount := size.groupCount + 1, groupBytes := size.groupBytes + Bytes(item.text))
    else size.(fileCount := size.fileCount + 1, fileBytes := size.fileBytes + Bytes(item.text))
  }

  /** The size that the loop keeps describes the items that it has included. */
  ghost predicate Describes(size: Size, included: seq<Item>) {
    && size.groupCount == |Texts(included, true)| && size.groupBytes == Total(Texts(included, true))
    && size.fileCount == |Texts(included, false)| && size.fileBytes == Total(Texts(included, false))
  }

  lemma TotalMore(texts: seq<string>, text: string)
    ensures Total(texts + [text]) == Total(texts) + Bytes(text)
  {
    assert (texts + [text])[..|texts|] == texts;
  }

  lemma TextsAppended(included: seq<Item>, item: Item, group: bool)
    ensures Texts(included + [item], group) == Texts(included, group) + if item.group == group then [item.text] else []
  {
    var all := included + [item];
    assert all[..|all| - 1] == included && all[|all| - 1] == item;
    assert Texts(included, group) + [] == Texts(included, group);
  }

  lemma TextsMore(included: seq<Item>, item: Item, group: bool)
    ensures Texts(included + [item], group) == Texts(included, group) + if item.group == group then [item.text] else []
    ensures Total(Texts(included + [item], group)) == Total(Texts(included, group)) + if item.group == group then Bytes(item.text) else 0
  {
    TextsAppended(included, item, group);
    TotalMore(Texts(included, group), item.text);
    assert Texts(included, group) + [] == Texts(included, group);
  }

  lemma DescribesMore(size: Size, included: seq<Item>, item: Item)
    requires Describes(size, included)
    ensures Describes(Added(size, item), included + [item])
    ensures FilesOf(included + [item]) == FilesOf(included) + item.files
  {
    TextsMore(included, item, true);
    TextsMore(included, item, false);
    assert (included + [item])[..|included|] == included;
  }

  lemma MemberBytes(key: string, value: string)
    ensures Bytes(Member(key, value)) == KeyBytes(key) + 1 + Bytes(value)
  {
    BytesConcat(Quote(key) + ":", value);
    BytesConcat(Quote(key), ":");
    assert Bytes(":") == 1;
  }

  lemma ArrayMemberBytes(key: string, texts: seq<string>)
    ensures Bytes(Member(key, ArrayText(texts))) == KeyBytes(key) + 1 + ArrayLength(|texts|, Total(texts))
  {
    MemberBytes(key, ArrayText(texts));
    BytesBracketed("[", texts, "]");
  }

  lemma {:induction false} TotalConcat(a: seq<string>, b: seq<string>)
    ensures Total(a + b) == Total(a) + Total(b)
  {
    if b == [] {
      assert a + b == a;
    } else {
      assert (a + b)[..|a + b| - 1] == a + b[..|b| - 1];
      TotalConcat(a, b[..|b| - 1]);
    }
  }

  lemma TotalOne(text: string)
    ensures Total([text]) == Bytes(text)
  {
    assert [text][..0] == [];
  }

  lemma TotalTwo(first: string, second: string)
    ensures Total([first, second]) == Bytes(first) + Bytes(second)
  {
    assert [first, second] == [first] + [second];
    TotalConcat([first], [second]);
    TotalOne(first);
    TotalOne(second);
  }

  function ArrayMember(key: string, texts: seq<string>): seq<string> {
    if texts == [] then [] else [Member(key, ArrayText(texts))]
  }

  lemma ArrayMemberTotal(key: string, texts: seq<string>)
    ensures Total(ArrayMember(key, texts)) == if texts == [] then 0 else KeyBytes(key) + 1 + ArrayLength(|texts|, Total(texts))
  {
    if texts != [] {
      ArrayMemberBytes(key, texts);
      TotalOne(Member(key, ArrayText(texts)));
    }
  }

  function Omission(names: Names, omitted: nat): seq<string> {
    if omitted == 0 then [] else [Member(names.omitted, Decimal(omitted)), Member(names.reason, Quote(names.why))]
  }

  lemma OmissionTotal(names: Names, omitted: nat)
    ensures Total(Omission(names, omitted)) == if omitted == 0 then 0
            else KeyBytes(names.omitted) + 1 + |Decimal(omitted)| + KeyBytes(names.reason) + 1 + Bytes(Quote(names.why))
  {
    if omitted > 0 {
      var first, second := Member(names.omitted, Decimal(omitted)), Member(names.reason, Quote(names.why));
      MemberBytes(names.omitted, Decimal(omitted));
      MemberBytes(names.reason, Quote(names.why));
      BytesOfAscii(Decimal(omitted));
      TotalTwo(first, second);
    }
  }

  /** The account is the byte length of the JSON text that is finally stored. */
  lemma AccountIsExact(names: Names, size: Size, included: seq<Item>, omitted: nat)
    requires Describes(size, included)
    ensures AccountedLength(names, size, omitted) == Bytes(DetailText(names, included, omitted))
  {
    var groups, files := ArrayMember(names.groups, Texts(included, true)), ArrayMember(names.files, Texts(included, false));
    var rest := Omission(names, omitted);
    BytesBracketed("{", Members(names, included, omitted), "}");
    TotalConcat(groups + files, rest);
    TotalConcat(groups, files);
    ArrayMemberTotal(names.groups, Texts(included, true));
    ArrayMemberTotal(names.files, Texts(included, false));
    OmissionTotal(names, omitted);
  }

  // ----------------------------------------------------------- inclusion

  /** The items that are kept, defined by the real length of the text with them: an
      item stays when the whole detail, with what would then be omitted, fits. */
  function Include(names: Names, items: seq<Item>, total: nat): (r: seq<Item>)
    requires FilesOf(items) <= total
    ensures FilesOf(r) <= FilesOf(items)
  {
    if items == [] then []
    else
      var before, last := Include(names, items[..|items| - 1], total), items[|items| - 1];
      FilesOfMore(before, last);
      if Fits(names, before + [last], total) then before + [last] else before
  }

  /** The text of this detail is within the budget. */
  predicate Fits(names: Names, included: seq<Item>, total: nat)
    requires FilesOf(included) <= total
  {
    Bytes(DetailText(names, included, total - FilesOf(included))) <= DETAIL_BUDGET_BYTES
  }

  lemma FilesOfMore(included: seq<Item>, item: Item)
    ensures FilesOf(included + [item]) == FilesOf(included) + item.files
  {
    assert (included + [item])[..|included|] == included;
  }

  /** What the account says about the next item is what the real text says. */
  lemma IncludeOne(names: Names, items: seq<Item>, n: nat, total: nat, included: seq<Item>, size: Size)
    requires n < |items| && FilesOf(items) <= total && Describes(size, included)
    requires FilesOf(items[..n]) <= total && included == Include(names, items[..n], total)
    ensures FilesOf(items[..n + 1]) <= total && FilesOf(included) + items[n].files <= total
    ensures Describes(Added(size, items[n]), included + [items[n]])
    ensures Include(names, items[..n + 1], total)
            == if AccountedLength(names, Added(size, items[n]), total - FilesOf(included) - items[n].files) <= DETAIL_BUDGET_BYTES
               then included + [items[n]] else included
  {
    assert items[..n + 1][..n] == items[..n];
    FilesOfPrefix(items, n + 1);
    FilesOfMore(included, items[n]);
    DescribesMore(size, included, items[n]);
    AccountIsExact(names, Added(size, items[n]), included + [items[n]], total - FilesOf(included) - items[n].files);
  }

  /** The inclusion loop decides by the account alone and keeps just these items. */
  method IncludeWhenBounded(names: Names, items: seq<Item>, total: nat) returns (included: seq<Item>, represented: nat)
    requires FilesOf(items) <= total
    ensures included == Include(names, items, total) && represented == FilesOf(included)
  {
    included, represented := [], 0;
    var size := Size(0, 0, 0, 0);
    for n := 0 to |items|
      invariant FilesOf(items[..n]) <= total && included == Include(names, items[..n], total)
      invariant represented == FilesOf(included) && Describes(size, included)
    {
      var item := items[n];
      IncludeOne(names, items, n, total, included, size);
      FilesOfMore(included, item);
      var projected, omitted := Added(size, item), total - represented - item.files;
      var bytes := SummarizedDetailByteLength(names, projected, omitted);
      if bytes <= DETAIL_BUDGET_BYTES {
        size, represented, included := projected, represented + item.files, included + [item];
      }
    }
    assert items[..|items|] == items;
  }

  lemma {:induction false} FilesOfPrefix(items: seq<Item>, n: nat)
    requires n <= |items|
    ensures FilesOf(items[..n]) <= FilesOf(items)
  {
    if n < |items| {
      FilesOfPrefix(items[..|items| - 1], n);
      assert items[..|items| - 1][..n] == items[..n];
    } else {
      assert items[..n] == items;
    }
  }

  lemma {:induction false} LastIncludedFits(names: Names, items: seq<Item>, total: nat)
    requires FilesOf(items) <= total
    ensures var r := Include(names, items, total); r != [] ==> Fits(names, r, total)
  {
    if items != [] {
      var before, last := Include(names, items[..|items| - 1], total), items[|items| - 1];
      LastIncludedFits(names, items[..|items| - 1], total);
      FilesOfMore(before, last);
    }
  }

  predicate Plain(s: string) { forall i :: 0 <= i < |s| ==> ' ' <= s[i] < '\U{7F}' && s[i] != '"' && s[i] != '\\' }

  lemma {:induction false} PlainText(s: string)
    requires Plain(s)
    ensures EscapedAll(s) == s && Bytes(s) == |s| && Bytes(Quote(s)) == |s| + 2
  {
    if s != "" {
      PlainText(s[1..]);
      assert Escaped(s[0]) == [s[0]];
    }
    BytesConcat("\"" + EscapedAll(s), "\"");
    BytesConcat("\"", EscapedAll(s));
    assert Bytes("\"") == 1;
  }

  predicate PlainNames(names: Names) {
    Plain(names.omitted) && Plain(names.reason) && Plain(names.why)
  }

  /** What the detail takes when it says only what was omitted, less the digits. */
  function OmissionBytes(names: Names): nat { |names.omitted| + |names.reason| + |names.why| + 11 }

  lemma NamesAreShort()
    ensures PlainNames(NAMES) && OmissionBytes(NAMES) == 55
  {}

  /** Without any item the detail is two braces, or says only what was omitted. */
  lemma BareDetail(names: Names, total: nat)
    requires PlainNames(names)
    ensures Bytes(DetailText(names, [], total)) == if total == 0 then 2 else OmissionBytes(names) + |Decimal(total)|
  {
    AccountIsExact(names, Size(0, 0, 0, 0), [], total);
    PlainText(names.omitted);
    PlainText(names.reason);
    PlainText(names.why);
  }

  /** The budget holds for every list of results; the only thing that could exceed it
      is a number of files with 119946 digits, with no entry that fits. */
  lemma BudgetHoldsIff(names: Names, items: seq<Item>, total: nat)
    requires FilesOf(items) <= total && PlainNames(names) && OmissionBytes(names) == 55
    ensures var r := Include(names, items, total);
            Fits(names, r, total) <==> r != [] || total == 0 || |Decimal(total)| <= 119_945
  {
    LastIncludedFits(names, items, total);
    BareDetail(names, total);
  }

  lemma {:induction false} GroupItemsFiles(groups: seq<Group>)
    ensures FilesOf(GroupItems(groups)) == Sum(groups)
  {
    if groups != [] {
      var before := GroupItems(groups[..|groups| - 1]);
      GroupItemsFiles(groups[..|groups| - 1]);
      assert GroupItems(groups)[..|before|] == before;
    }
  }

  lemma {:induction false} FileItemsFiles(files: seq<FileResult>)
    ensures FilesOf(FileItems(files)) == |files|
  {
    if files != [] {
      var before := FileItems(files[..|files| - 1]);
      FileItemsFiles(files[..|files| - 1]);
      assert FileItems(files)[..|before|] == before;
    }
  }

  lemma {:induction false} FilesOfConcat(a: seq<Item>, b: seq<Item>)
    ensures FilesOf(a + b) == FilesOf(a) + FilesOf(b)
  {
    if b == [] {
      assert a + b == a;
    } else {
      assert (a + b)[..|a + b| - 1] == a + b[..|b| - 1];
      FilesOfConcat(a, b[..|b| - 1]);
    }
  }

  method BoundedDetail(names: Names, items: seq<Item>) returns (detail: string, included: seq<Item>, omitted: nat)
    requires PlainNames(names) && OmissionBytes(names) == 55
    ensures included == Include(names, items, FilesOf(items)) && FilesOf(included) + omitted == FilesOf(items)
    ensures detail == DetailText(names, included, omitted)
    ensures |Decimal(FilesOf(items))| <= 119_945 ==> Fits(names, included, FilesOf(items))
  {
    var total := FilesOf(items);
    var represented;
    included, represented := IncludeWhenBounded(names, items, total);
    omitted := total - represented;
    detail := DetailText(names, included, omitted);
    BudgetHoldsIff(names, items, total);
  }

  /** The whole summary: what is represented and what is omitted make up all results,
      and the text that is stored stays within the budget. */
  method SummarizeFileResults(names: Names, results: seq<FileResult>) returns (detail: string, included: seq<Item>, omitted: nat, c: Collected)
    requires PlainNames(names) && OmissionBytes(names) == 55
    ensures Collects(c, results)
    ensures included == Include(names, AllItems(c), |results|) && FilesOf(included) + omitted == |results|
    ensures detail == DetailText(names, included, omitted)
    ensures |Decimal(|results|)| <= 119_945 ==> Fits(names, included, |results|)
  {
    c := GroupResults(results);
    detail, included, omitted := BoundedDetail(names, AllItems(c));
  }

  /** Groups come before files; together they stand for every result. */
  function AllItems(c: Collected): (r: seq<Item>)
    ensures FilesOf(r) == Sum(c.groups) + |c.files|
  {
    GroupItemsFiles(c.groups);
    FileItemsFiles(c.files);
    FilesOfConcat(GroupItems(c.groups), FileItems(c.files));
    GroupItems(c.groups) + FileItems(c.files)
  }

  /** What competes for the budget: the groups first, each for all its files, and then
      every other file for itself. */
  lemma ItemsInOrder(c: Collected, i: nat)
    requires i < |c.groups| + |c.files|
    ensures |AllItems(c)| == |c.groups| + |c.files|
    ensures AllItems(c)[i].group <==> i < |c.groups|
    ensures i < |c.groups| ==> AllItems(c)[i].text == GroupText(c.groups[i]) && AllItems(c)[i].files == c.groups[i].fileCount
    ensures i >= |c.groups| ==> AllItems(c)[i].text == FileText(c.files[i - |c.groups|]) && AllItems(c)[i].files == 1
  {
    if i < |c.groups| { GroupItemAt(c.groups, i); } else { FileItemAt(c.files, i - |c.groups|); }
  }

  lemma GroupItemAt(groups: seq<Group>, i: nat)
    requires i < |groups|
    ensures GroupItems(groups)[i].group && GroupItems(groups)[i].text == GroupText(groups[i]) && GroupItems(groups)[i].files == groups[i].fileCount
  {
    ItemAt(groups, GroupItem, i);
  }

  lemma FileItemAt(files: seq<FileResult>, i: nat)
    requires i < |files|
    ensures !FileItems(files)[i].group && FileItems(files)[i].text == FileText(files[i]) && FileItems(files)[i].files == 1
  {
    ItemAt(files, FileItem, i);
  }

  /** As the source calls it, with its own names. */
  method Summarize(results: seq<FileResult>) returns (detail: string, included: seq<Item>, omitted: nat)
    ensures detail == DetailText(NAMES, included, omitted) && FilesOf(included) + omitted == |results|
    ensures |Decimal(|results|)| <= 119_945 ==> Fits(NAMES, included, |results|)
  {
    NamesAreShort();
    var c;
    detail, included, omitted, c := SummarizeFileResults(NAMES, results);
  }
}
