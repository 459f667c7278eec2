/**
 * The drink catalogue: a text of `code,name` lines turned into a map from
 * drink id to drink name. A line without a comma or with a key that is not a
 * decimal `Int` makes the whole parse fail; when an id repeats, the later
 * line's name wins.
 */
module Drinks {
  import opened Wrappers
  import opened Int32Math

  predicate IsBreak(c: char)
  {
    c == '\n' || c == '\r'
  }

  predicate NoBreaks(s: string)
  {
    forall i :: 0 <= i < |s| ==> !IsBreak(s[i])
  }

  /** Kotlin's `lines()`: the text split at `\r\n`, `\n` and `\r`; a text ending in a break ends in an empty line. */
  function Lines(s: string): (lines: seq<string>)
    ensures |lines| >= 1
    ensures forall k :: 0 <= k < |lines| ==> NoBreaks(lines[k])
    decreases |s|
  {
    if s == [] then [""]
    else if s[0] == '\n' then [""] + Lines(s[1..])
    else if s[0] == '\r' then
      if |s| > 1 && s[1] == '\n' then [""] + Lines(s[2..]) else [""] + Lines(s[1..])
    else
      var rest := Lines(s[1..]);
      [[s[0]] + rest[0]] + rest[1..]
  }

  /** The three line breaks `lines()` splits at. */
  predicate LineBreak(sep: string)
  {
    sep == "\n" || sep == "\r\n" || sep == "\r"
  }

  /** The lines written one after another, each but the last followed by `sep`. */
  function JoinWith(lines: seq<string>, sep: string): string
    requires lines != []
  {
    if |lines| == 1 then lines[0] else lines[0] + sep + JoinWith(lines[1..], sep)
  }

  /** A break-free prefix joins the first line. */
  lemma {:induction false} LinesPrefix(line: string, t: string)
    requires NoBreaks(line)
    ensures Lines(line + t) == [line + Lines(t)[0]] + Lines(t)[1..]
    decreases |line|
  {
    if line != [] {
      assert (line + t)[0] == line[0] && !IsBreak(line[0]);
      assert (line + t)[1..] == line[1..] + t;
      assert NoBreaks(line[1..]) by {
        forall i | 0 <= i < |line[1..]|
          ensures !IsBreak(line[1..][i])
        {
          assert line[1..][i] == line[i + 1];
        }
      }
      LinesPrefix(line[1..], t);
      var rest := Lines(line[1..] + t);
      assert rest[0] == line[1..] + Lines(t)[0] && rest[1..] == Lines(t)[1..];
      assert Lines(line + t) == [[line[0]] + rest[0]] + rest[1..];
      assert [line[0]] + (line[1..] + Lines(t)[0]) == line + Lines(t)[0];
    } else {
      assert line + t == t && line + Lines(t)[0] == Lines(t)[0];
      assert [Lines(t)[0]] + Lines(t)[1..] == Lines(t);
    }
  }

  /** Splitting break-free lines joined by any one of `\n`, `\r\n` or `\r` gives the lines back. */
  lemma {:induction false} LinesOfJoinWith(lines: seq<string>, sep: string)
    requires LineBreak(sep)
    requires lines != [] && forall k :: 0 <= k < |lines| ==> NoBreaks(lines[k])
    ensures Lines(JoinWith(lines, sep)) == lines
    decreases |lines|
  {
    if |lines| == 1 {
      LinesPrefix(lines[0], "");
      assert lines[0] + "" == lines[0];
    } else {
      var rest := JoinWith(lines[1..], sep);
      assert lines[0] + sep + rest == lines[0] + (sep + rest);
      LinesPrefix(lines[0], sep + rest);
      assert Lines(sep + rest) == [""] + Lines(rest);
      LinesOfJoinWith(lines[1..], sep);
      assert lines[0] + "" == lines[0];
      assert [lines[0]] + lines[1..] == lines;
    }
  }

  /** A text ending in a line break splits into at least two lines, the last of them empty. */
  lemma {:induction false} EndsWithEmptyLine(s: string)
    requires s != [] && IsBreak(s[|s| - 1])
    ensures |Lines(s)| >= 2 && Lines(s)[|Lines(s)| - 1] == ""
    decreases |s|
  {
    if |s| > 1 {
      var skip := if s[0] == '\r' && s[1] == '\n' then 2 else 1;
      if skip == 1 || |s| > 2 {
        EndsWithEmptyLine(s[skip..]);
      }
    }
  }

  /** `split(',', limit = 2)` destructured into two parts: the text before the first comma and the rest; no comma fails. */
  function SplitFirstComma(line: string): (r: Option<(string, string)>)
    ensures r.None? <==> ',' !in line
    ensures r.Some? ==> line == r.value.0 + [','] + r.value.1 && ',' !in r.value.0
  {
    if line == [] then None
    else if line[0] == ',' then Some(([], line[1..]))
    else
      match SplitFirstComma(line[1..])
      case None => None
      case Some((code, name)) => Some(([line[0]] + code, name))
  }

  predicate IsDigit(c: char)
  {
    '0' <= c <= '9'
  }

  predicate AllDigits(s: string)
  {
    forall i :: 0 <= i < |s| ==> IsDigit(s[i])
  }

  function DigitsValue(s: string): nat
    requires AllDigits(s)
  {
    if s == [] then 0 else DigitsValue(s[..|s| - 1]) * 10 + (s[|s| - 1] - '0') as nat
  }

  /** The value of a sign followed by digits. */
  function Signed(sign: char, digits: string): int
    requires AllDigits(digits)
  {
    if sign == '-' then -(DigitsValue(digits) as int) else DigitsValue(digits)
  }

  /**
   * Kotlin's `toInt()` on ASCII text: an optional sign, at least one digit, and
   * a value that fits an `Int`; anything else (a letter, a space, a bare sign, an
   * empty text, a value out of range) gives no number.
   */
  function ParseInt(s: string): (r: Option<Int32>)
    ensures r.Some? ==> s != [] && ',' !in s && NoBreaks(s)
    ensures r.Some? && r.value < 0 ==> s[0] == '-'
    ensures s != [] && AllDigits(s) && DigitsValue(s) <= MAX ==> r == Some(DigitsValue(s))
    ensures r.Some? ==>
      || (s != [] && AllDigits(s) && r.value == DigitsValue(s))
      || (|s| > 1 && (s[0] == '-' || s[0] == '+') && AllDigits(s[1..]) && r.value == Signed(s[0], s[1..]))
    ensures |s| > 1 && (s[0] == '-' || s[0] == '+') && AllDigits(s[1..]) && MIN <= Signed(s[0], s[1..]) <= MAX
            ==> r == Some(Signed(s[0], s[1..]))
  {
    if s == [] then None
    else if s[0] == '-' || s[0] == '+' then
      if |s| == 1 || !AllDigits(s[1..]) then None
      else
        var v := Signed(s[0], s[1..]);
        assert forall i :: 1 <= i < |s| ==> s[i] == s[1..][i - 1];
        if MIN <= v <= MAX then Some(v) else None
    else if !AllDigits(s) then None
    else
      var v := DigitsValue(s);
      if v <= MAX then Some(v) else None
  }

  /** The decimal digits of `n`, most significant first, with no leading zero. */
  function ShowNat(n: nat): (s: string)
    ensures s != [] && AllDigits(s)
    ensures |s| > 1 ==> s[0] != '0'
  {
    var d := ['0' + (n % 10) as char];
    if n < 10 then d else ShowNat(n / 10) + d
  }

  /** `Int.toString()`: a minus sign for negative values, then the digits. */
  function ShowInt(v: Int32): string
  {
    if v < 0 then "-" + ShowNat(-(v as int)) else ShowNat(v)
  }

  lemma {:induction false} DigitsOfShowNat(n: nat)
    ensures DigitsValue(ShowNat(n)) == n
  {
    var s := ShowNat(n);
    if n >= 10 {
      DigitsOfShowNat(n / 10);
      assert s[..|s| - 1] == ShowNat(n / 10);
    }
  }

  /** Reading back a printed `Int` gives the same value. */
  lemma ParseShowInt(v: Int32)
    ensures ParseInt(ShowInt(v)) == Some(v)
  {
    if v < 0 {
      ParseShowNegative(v);
    } else {
      DigitsOfShowNat(v);
    }
  }

  lemma ParseShowNegative(v: Int32)
    requires v < 0
    ensures ParseInt(ShowInt(v)) == Some(v)
  {
    var n: nat := -(v as int);
    var s := ShowInt(v);
    assert s[0] == '-' && s[1..] == ShowNat(n);
    assert |s| > 1 && AllDigits(s[1..]);
    DigitsOfShowNat(n);
    assert DigitsValue(s[1..]) == n;
  }

  /**
   * One line's entry: the code before the first comma as an `Int`, and the name after
   * it; none when the line has no comma or the text before its first comma is not an `Int`.
   */
  function EntryOf(line: string): (r: Option<(Int32, string)>)
    ensures r.Some? ==> |r.value.1| < |line| && line[|line| - |r.value.1| - 1] == ',' && line[|line| - |r.value.1|..] == r.value.1
    ensures r.Some? ==> var code := line[..|line| - |r.value.1| - 1];
      ',' !in code && ParseInt(code) == Some(r.value.0)
    ensures r.None? <==>
      forall k :: 0 <= k < |line| && line[k] == ',' && ',' !in line[..k] ==> ParseInt(line[..k]).None?
  {
    match SplitFirstComma(line)
    case None => None
    case Some((code, name)) =>
      FirstCommaAt(line, code, name);
      match ParseInt(code)
      case None => None
      case Some(key) => Some((key, name))
  }

  /** The comma after `code` is the first comma of the line. */
  lemma FirstCommaAt(line: string, code: string, name: string)
    requires line == code + [','] + name && ',' !in code
    ensures line[..|code|] == code && line[|code|] == ','
    ensures forall k :: 0 <= k < |line| && line[k] == ',' && ',' !in line[..k] ==> k == |code|
  {
    assert line[..|code|] == code;
  }

  /** A line's entry, or `None` when the line makes the parse throw. */
  type Entry = Option<(Int32, string)>

  /**
   * `associate` over the lines' entries: every line must give an entry, and an id
   * that repeats takes the name of its last line.
   */
  function Associate(entries: seq<Entry>): Option<map<Int32, string>>
  {
    if entries == [] then Some(map[])
    else
      var n := |entries| - 1;
      match Associate(entries[..n])
      case None => None
      case Some(m) =>
        match entries[n]
        case None => None
        case Some((key, name)) => Some(m[key := name])
  }

  /** The parse fails exactly when some line gives no entry. */
  lemma {:induction false} AssociateFails(entries: seq<Entry>)
    ensures Associate(entries).None? <==> exists k :: 0 <= k < |entries| && entries[k].None?
  {
    if entries != [] {
      var n := |entries| - 1;
      var init := entries[..n];
      assert forall k :: 0 <= k < n ==> entries[k] == init[k];
      AssociateFails(init);
    }
  }

  /** The parsed ids are exactly the ids of the lines. */
  lemma {:induction false} AssociateKeys(entries: seq<Entry>, key: Int32)
    requires Associate(entries).Some?
    ensures key in Associate(entries).value <==>
      exists k :: 0 <= k < |entries| && entries[k].Some? && entries[k].value.0 == key
  {
    if entries != [] {
      var n := |entries| - 1;
      var init := entries[..n];
      assert forall k :: 0 <= k < n ==> entries[k] == init[k];
      AssociateKeys(init, key);
    }
  }

  /** Entry `k` is present and no later entry has the same id. */
  predicate LastFor(entries: seq<Entry>, k: nat)
    requires k < |entries|
  {
    entries[k].Some? &&
    forall j :: k < j < |entries| && entries[j].Some? ==> entries[j].value.0 != entries[k].value.0
  }

  /** A repeated id takes the name of its last line. */
  lemma {:induction false} AssociateLastWins(entries: seq<Entry>, k: nat)
    requires Associate(entries).Some? && k < |entries| && LastFor(entries, k)
    ensures entries[k].value.0 in Associate(entries).value
    ensures Associate(entries).value[entries[k].value.0] == entries[k].value.1
  {
    var n := |entries| - 1;
    if k < n {
      var init := entries[..n];
      assert forall j :: 0 <= j < n ==> entries[j] == init[j];
      assert LastFor(init, k);
      AssociateLastWins(init, k);
    }
  }

  /** The entry of every line of a text. */
  function EntriesOf(lines: seq<string>): (entries: seq<Entry>)
    ensures |entries| == |lines| && forall k :: 0 <= k < |lines| ==> entries[k] == EntryOf(lines[k])
  {
    seq(|lines|, k requires 0 <= k < |lines| => EntryOf(lines[k]))
  }

  /** Some line of the text gives no entry. */
  predicate SomeLineFails(lines: seq<string>)
  {
    exists k :: 0 <= k < |lines| && EntryOf(lines[k]).None?
  }

  /** The catalogue read from a text: `parseCsv`. It fails exactly when some line fails. */
  function ParseCsv(text: string): (r: Option<map<Int32, string>>)
    ensures r.None? <==> SomeLineFails(Lines(text))
  {
    LinesFail(Lines(text));
    Associate(EntriesOf(Lines(text)))
  }

  /** The entries fail exactly when some line has no entry. */
  lemma LinesFail(lines: seq<string>)
    ensures Associate(EntriesOf(lines)).None? <==> SomeLineFails(lines)
  {
    var entries := EntriesOf(lines);
    AssociateFails(entries);
    if SomeLineFails(lines) {
      var k :| 0 <= k < |lines| && EntryOf(lines[k]).None?;
      assert entries[k].None?;
    }
    if exists k :: 0 <= k < |entries| && entries[k].None? {
      var k :| 0 <= k < |entries| && entries[k].None?;
      assert EntryOf(lines[k]).None?;
    }
  }

  /** A text ending in a line break yields an empty last line, which has no comma, so the whole parse fails. */
  lemma TrailingBreakFails(text: string)
    requires text != [] && IsBreak(text[|text| - 1])
    ensures ParseCsv(text) == None
  {
    EndsWithEmptyLine(text);
    EmptyLastLineFails(Lines(text));
  }

  /** An empty last line has no comma, so it gives no entry and the parse fails. */
  lemma EmptyLastLineFails(lines: seq<string>)
    requires |lines| >= 1 && lines[|lines| - 1] == ""
    ensures Associate(EntriesOf(lines)) == None
  {
    var entries := EntriesOf(lines);
    assert entries[|lines| - 1] == EntryOf("");
    AssociateFails(entries);
  }

  /** The line a catalogue entry is written as. */
  function EntryLine(key: Int32, name: string): string
  {
    ShowInt(key) + [','] + name
  }

  lemma EntryOfLine(key: Int32, name: string)
    ensures EntryOf(EntryLine(key, name)) == Some((key, name))
  {
    var line := EntryLine(key, name);
    ParseShowInt(key);
    assert ',' !in ShowInt(key);
    assert line == ShowInt(key) + [','] + name;
    SplitAt(ShowInt(key), name);
  }

  lemma {:induction false} SplitAt(code: string, name: string)
    requires ',' !in code
    ensures SplitFirstComma(code + [','] + name) == Some((code, name))
    decreases |code|
  {
    if code != [] {
      assert (code + [','] + name)[1..] == code[1..] + [','] + name;
      SplitAt(code[1..], name);
      assert [code[0]] + code[1..] == code;
    }
  }

  /** The map a list of entries stands for: a later entry for the same id wins. */
  function MapOf(entries: seq<(Int32, string)>): map<Int32, string>
  {
    if entries == [] then map[]
    else
      var n := |entries| - 1;
      MapOf(entries[..n])[entries[n].0 := entries[n].1]
  }

  function Render(entries: seq<(Int32, string)>): seq<string>
  {
    seq(|entries|, k requires 0 <= k < |entries| => EntryLine(entries[k].0, entries[k].1))
  }

  /** Every rendered line gives back its entry. */
  lemma RenderedEntries(entries: seq<(Int32, string)>)
    ensures EntriesOf(Render(entries)) == seq(|entries|, k requires 0 <= k < |entries| => Some(entries[k]))
  {
    forall k | 0 <= k < |entries|
      ensures EntryOf(Render(entries)[k]) == Some(entries[k])
    {
      EntryOfLine(entries[k].0, entries[k].1);
    }
  }

  lemma {:induction false} AssociateAll(entries: seq<(Int32, string)>)
    ensures Associate(seq(|entries|, k requires 0 <= k < |entries| => Some(entries[k]))) == Some(MapOf(entries))
    decreases |entries|
  {
    if entries != [] {
      var n := |entries| - 1;
      AssociateAll(entries[..n]);
      var all := seq(|entries|, k requires 0 <= k < |entries| => Some(entries[k]));
      assert all[..n] == seq(n, k requires 0 <= k < n => Some(entries[..n][k]));
    }
  }

  lemma RenderedNoBreaks(key: Int32, name: string)
    requires NoBreaks(name)
    ensures NoBreaks(EntryLine(key, name))
  {
    var code := ShowInt(key);
    var line := EntryLine(key, name);
    ParseShowInt(key);
    forall i | 0 <= i < |line|
      ensures !IsBreak(line[i])
    {
      if i < |code| {
        assert line[i] == code[i];
      } else if i > |code| {
        assert line[i] == name[i - |code| - 1];
      }
    }
  }

  /** Writing a catalogue out one `id,name` line per entry, with any of the three breaks, and parsing it gives the catalogue back. */
  lemma ParseRendered(entries: seq<(Int32, string)>, sep: string)
    requires LineBreak(sep) && entries != []
    requires forall k :: 0 <= k < |entries| ==> NoBreaks(entries[k].1)
    ensures ParseCsv(JoinWith(Render(entries), sep)) == Some(MapOf(entries))
  {
    var lines := Render(entries);
    forall k | 0 <= k < |lines|
      ensures NoBreaks(lines[k])
    {
      RenderedNoBreaks(entries[k].0, entries[k].1);
    }
    LinesOfJoinWith(lines, sep);
    RenderedEntries(entries);
    AssociateAll(entries);
  }
}
