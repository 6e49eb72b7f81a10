/** The KEY=VALUE lines a host writes for a VM and the metadata map built from them. */
module Mmds {
  import opened Text
  import opened Wrappers

  datatype Value = Bool(flag: bool) | Str(text: string)

  type Metadata = map<string, Value>

  /** `str::to_lowercase`; nothing below depends on how it maps characters outside ASCII. */
  type Lowering = string -> string

  // ---- Reading ----

  function StripReturn(line: string): string {
    if line != "" && line[|line| - 1] == '\r' then line[..|line| - 1] else line
  }

  /** `str::lines`: pieces between line feeds, each without one trailing carriage return; no empty last piece. */
  function Lines(s: string): seq<string>
    decreases |s|
  {
    if s == "" then []
    else
      var i := IndexOf(s, '\n');
      if i == |s| then [s] else [StripReturn(s[..i])] + Lines(s[i + 1..])
  }

  function ValueOf(text: string): Value {
    if text == "true" || text == "false" then Bool(text == "true") else Str(text)
  }

  type Pair = (string, string)

  /** `split_once('=')`: what stands before and after the first equals sign, if there is one. */
  function SplitOnce(line: string): Option<Pair> {
    var i := IndexOf(line, '=');
    if i == |line| then None else Some((line[..i], line[i + 1..]))
  }

  function Entry(lower: Lowering, pair: Pair): Metadata { map[lower(Trim(pair.0)) := ValueOf(Trim(pair.1))] }

  /** The entry of one line, if it has an equals sign. */
  function ReadLine(lower: Lowering, line: string): Metadata {
    var pair := SplitOnce(line);
    if pair.None? then map[] else Entry(lower, pair.value)
  }

  /** Line by line, later lines overriding earlier ones. */
  function ReadLines(lower: Lowering, lines: seq<string>): Metadata {
    if lines == [] then map[] else ReadLines(lower, lines[..|lines| - 1]) + ReadLine(lower, lines[|lines| - 1])
  }

  function Parse(lower: Lowering, s: string): Metadata { ReadLines(lower, Lines(s)) }

  lemma ReadLinesNext(lower: Lowering, lines: seq<string>, k: nat)
    requires k < |lines|
    ensures ReadLines(lower, lines[..k + 1]) == ReadLines(lower, lines[..k]) + ReadLine(lower, lines[k])
  {
    assert lines[..k + 1][..k] == lines[..k];
  }

  /** The loop that builds the payload. */
  method BuildMmdsPayload(lower: Lowering, envContent: string) returns (payload: map<string, Metadata>)
    ensures payload == map["fc-runner" := Parse(lower, envContent)]
  {
    var inner: Metadata := map[];
    var lines := Lines(envContent);
    for k := 0 to |lines|
      invariant inner == ReadLines(lower, lines[..k])
    {
      ReadLinesNext(lower, lines, k);
      inner := InsertLine(lower, inner, lines[k]);
    }
    assert lines[..|lines|] == lines;
    payload := map["fc-runner" := inner];
  }

  /** The body of that loop. */
  method InsertLine(lower: Lowering, inner: Metadata, line: string) returns (inserted: Metadata)
    ensures inserted == inner + ReadLine(lower, line)
  {
    var pair := SplitOnce(line);
    if pair.None? {
      return inner;
    }
    var key, value := lower(Trim(pair.value.0)), Trim(pair.value.1);
    if value == "true" || value == "false" {
      inserted := inner[key := Bool(value == "true")];
    } else {
      inserted := inner[key := Str(value)];
    }
  }

  // ---- Writing ----

  function Line(pair: Pair): string { pair.0 + "=" + pair.1 + "\n" }

  function Render(pairs: seq<Pair>): string {
    if pairs == [] then "" else Line(pairs[0]) + Render(pairs[1..])
  }

  /** The pair stays on one line, and its first `=` is the separator. */
  predicate OnOneLine(pair: Pair) { '=' !in pair.0 && '\n' !in pair.0 && '\n' !in pair.1 }

  /** The pairs as a map: later ones win. */
  function Collected(lower: Lowering, pairs: seq<Pair>): Metadata {
    if pairs == [] then map[] else Entry(lower, pairs[0]) + Collected(lower, pairs[1..])
  }

  // ---- Splitting into lines ----

  lemma LinesOfLine(line: string, rest: string)
    requires '\n' !in line
    ensures Lines(line + "\n" + rest) == [StripReturn(line)] + Lines(rest)
  {
    var s := line + "\n" + rest;
    assert s == line + ("\n" + rest);
    IndexOfAfter(line, "\n" + rest, '\n');
    assert s[..|line|] == line && s[|line| + 1..] == rest;
  }

  /** The text is empty or ends its last line. */
  predicate Terminated(s: string) { s == "" || s[|s| - 1] == '\n' }

  lemma Associative<T>(a: seq<T>, b: seq<T>, c: seq<T>)
    ensures (a + b) + c == a + (b + c)
  {
  }

  lemma SplitAround<T>(a: seq<T>, i: nat)
    requires i < |a|
    ensures a == a[..i] + [a[i]] + a[i + 1..]
  {
  }

  lemma HasFeed(a: string)
    requires Terminated(a) && a != ""
    ensures IndexOf(a, '\n') < |a|
  {
    assert a[|a| - 1] == '\n';
  }

  lemma FirstLine(a: string, i: nat)
    requires Terminated(a) && a != "" && i == IndexOf(a, '\n')
    ensures i < |a| && a == a[..i] + "\n" + a[i + 1..] && Terminated(a[i + 1..])
  {
    HasFeed(a);
    SplitAround(a, i);
    assert [a[i]] == "\n";
    assert a[i + 1..] != "" ==> a[i + 1..][|a| - i - 2] == a[|a| - 1];
  }

  lemma LinesOfAppendLine(line: string, rest: string, b: string)
    requires '\n' !in line && Lines(rest + b) == Lines(rest) + Lines(b)
    ensures Lines((line + "\n" + rest) + b) == Lines(line + "\n" + rest) + Lines(b)
  {
    LinesOfLine(line, rest);
    LinesOfLine(line, rest + b);
    Associative(line + "\n", rest, b);
    Associative([StripReturn(line)], Lines(rest), Lines(b));
  }

  lemma {:induction false} LinesOfAppend(a: string, b: string)
    requires Terminated(a)
    ensures Lines(a + b) == Lines(a) + Lines(b)
    decreases |a|
  {
    if a == "" {
      assert a + b == b;
    } else {
      var i := IndexOf(a, '\n');
      FirstLine(a, i);
      LinesOfAppend(a[i + 1..], b);
      LinesOfAppendLine(a[..i], a[i + 1..], b);
    }
  }

  lemma MergeAssociative(a: Metadata, b: Metadata, c: Metadata)
    ensures (a + b) + c == a + (b + c)
  {
  }

  lemma {:induction false} ReadLinesAppend(lower: Lowering, a: seq<string>, b: seq<string>)
    ensures ReadLines(lower, a + b) == ReadLines(lower, a) + ReadLines(lower, b)
  {
    if b == [] {
      assert a + b == a;
    } else {
      assert (a + b)[..|a + b| - 1] == a + b[..|b| - 1];
      ReadLinesAppend(lower, a, b[..|b| - 1]);
      MergeAssociative(ReadLines(lower, a), ReadLines(lower, b[..|b| - 1]), ReadLine(lower, b[|b| - 1]));
    }
  }

  lemma ReadLinesOne(lower: Lowering, line: string, rest: seq<string>)
    ensures ReadLines(lower, [line] + rest) == ReadLine(lower, line) + ReadLines(lower, rest)
  {
    ReadLinesAppend(lower, [line], rest);
    assert [line][..0] == [];
  }

  /** Appending to terminated text: the appended block overrides. */
  lemma ParseAppend(lower: Lowering, a: string, b: string)
    requires Terminated(a)
    ensures Parse(lower, a + b) == Parse(lower, a) + Parse(lower, b)
  {
    LinesOfAppend(a, b);
    ReadLinesAppend(lower, Lines(a), Lines(b));
  }

  // ---- Round trip ----

  lemma {:induction false} TrimStartAppend(s: string, c: char)
    ensures TrimStart(s + [c]) ==
      if TrimStart(s) != "" then TrimStart(s) + [c] else if IsSpace(c) then "" else [c]
  {
    if s == "" {
      assert s + [c] == [c];
      assert [c][1..] == "";
    } else if IsSpace(s[0]) {
      assert (s + [c])[1..] == s[1..] + [c];
      TrimStartAppend(s[1..], c);
    }
  }

  lemma TrimAppendSpace(s: string, c: char)
    requires IsSpace(c)
    ensures Trim(s + [c]) == Trim(s)
  {
    TrimStartAppend(s, c);
    var t := TrimStart(s);
    if t != "" {
      assert (t + [c])[..|t|] == t;
    }
  }

  lemma TrimStripReturn(s: string)
    ensures Trim(StripReturn(s)) == Trim(s)
  {
    if s != "" && s[|s| - 1] == '\r' {
      assert s == s[..|s| - 1] + ['\r'];
      TrimAppendSpace(s[..|s| - 1], '\r');
    }
  }

  /** A rendered pair is read back as its entry. */
  lemma ReadRendered(lower: Lowering, pair: Pair)
    requires OnOneLine(pair)
    ensures ReadLine(lower, StripReturn(pair.0 + "=" + pair.1)) == Entry(lower, pair)
  {
    var key, value := pair.0, pair.1;
    var line := key + "=" + value;
    var stripped := StripReturn(line);
    assert stripped == key + ("=" + StripReturn(value)) by {
      if value != "" && value[|value| - 1] == '\r' {
        assert line[..|line| - 1] == key + "=" + value[..|value| - 1];
      }
    }
    IndexOfAfter(key, "=" + StripReturn(value), '=');
    assert stripped[..|key|] == key && stripped[|key| + 1..] == StripReturn(value);
    TrimStripReturn(value);
  }

  /**
   Rendering pairs and parsing them returns exactly their map: keys lower-cased, both sides
   trimmed, the last value of a key kept, `true` and `false` turned into booleans.
   */
  lemma {:induction false} RoundTrip(lower: Lowering, pairs: seq<Pair>)
    requires forall pair | pair in pairs :: OnOneLine(pair)
    ensures Parse(lower, Render(pairs)) == Collected(lower, pairs)
    ensures Terminated(Render(pairs))
  {
    if pairs != [] {
      var pair, rest := pairs[0], Render(pairs[1..]);
      var line := pair.0 + "=" + pair.1;
      assert OnOneLine(pair);
      RoundTrip(lower, pairs[1..]);
      LinesOfLine(line, rest);
      ReadLinesOne(lower, StripReturn(line), Lines(rest));
      ReadRendered(lower, pair);
    }
  }

  /** Which pair decides a key: the last one that has it. */
  lemma {:induction false} LastPairWins(lower: Lowering, pairs: seq<Pair>, i: nat)
    requires i < |pairs| && forall j | i < j < |pairs| :: lower(Trim(pairs[j].0)) != lower(Trim(pairs[i].0))
    ensures lower(Trim(pairs[i].0)) in Collected(lower, pairs)
    ensures Collected(lower, pairs)[lower(Trim(pairs[i].0))] == ValueOf(Trim(pairs[i].1))
  {
    if i == 0 {
      KeysOfCollected(lower, pairs[1..], lower(Trim(pairs[0].0)));
    } else {
      LastPairWins(lower, pairs[1..], i - 1);
    }
  }

  lemma {:induction false} KeysOfCollected(lower: Lowering, pairs: seq<Pair>, key: string)
    ensures key in Collected(lower, pairs) <==> exists i :: 0 <= i < |pairs| && lower(Trim(pairs[i].0)) == key
  {
    if pairs != [] {
      KeysOfCollected(lower, pairs[1..], key);
      if i :| 0 <= i < |pairs[1..]| && lower(Trim(pairs[1..][i].0)) == key {
        assert lower(Trim(pairs[i + 1].0)) == key;
      }
      if i :| 0 < i < |pairs| && lower(Trim(pairs[i].0)) == key {
        assert lower(Trim(pairs[1..][i - 1].0)) == key;
      }
    }
  }

  // ---- Which values survive ----

  /** A text the parser can produce: on one line, trimmed, and not a boolean. */
  predicate Plain(text: string) { '\n' !in text && IsTrimmed(text) && text != "true" && text != "false" }

  ghost predicate AllPlain(m: Metadata) { forall key | key in m && m[key].Str? :: Plain(m[key].text) }

  lemma {:induction false} LinesAreWhole(s: string)
    ensures forall line | line in Lines(s) :: '\n' !in line
    decreases |s|
  {
    if s != "" {
      var i := IndexOf(s, '\n');
      IndexOfFirst(s, '\n');
      if i < |s| {
        var line, rest := StripReturn(s[..i]), s[i + 1..];
        LinesAreWhole(rest);
        forall l | l in [line] + Lines(rest)
          ensures '\n' !in l
        {
          assert l == line || l in Lines(rest);
        }
      } else {
        assert s[..i] == s;
      }
    }
  }

  lemma ReadLinePlain(lower: Lowering, line: string)
    requires '\n' !in line
    ensures AllPlain(ReadLine(lower, line))
  {
    var i := IndexOf(line, '=');
    if i < |line| {
      var lo, hi := TrimShape(line[i + 1..]);
    }
  }

  lemma {:induction false} ReadLinesPlain(lower: Lowering, lines: seq<string>)
    requires forall line | line in lines :: '\n' !in line
    ensures AllPlain(ReadLines(lower, lines))
  {
    if lines != [] {
      ReadLinesPlain(lower, lines[..|lines| - 1]);
      ReadLinePlain(lower, lines[|lines| - 1]);
    }
  }

  /**
   A value written under a key comes back as that text exactly when it is on one line,
   trimmed, and neither `true` nor `false`; it may contain `=`.
   */
  lemma SurvivesIffPlain(lower: Lowering, key: string, value: string)
    requires '=' !in key && '\n' !in key && IsTrimmed(key)
    ensures (lower(key) in Parse(lower, Line((key, value)))
      && Parse(lower, Line((key, value)))[lower(key)] == Str(value))
      <==> Plain(value)
  {
    var s := Line((key, value));
    if Plain(value) {
      RoundTrip(lower, [(key, value)]);
      assert Render([(key, value)]) == s + "" == s;
      TrimFixed(key);
      TrimFixed(value);
    } else {
      LinesAreWhole(s);
      ReadLinesPlain(lower, Lines(s));
    }
  }

  // ---- Exactly when appending overrides ----

  /** What follows the last line feed. */
  function Tail(s: string): (tail: string)
    ensures '\n' !in tail && |tail| <= |s| && tail == s[|s| - |tail|..] && Terminated(s[..|s| - |tail|])
  {
    if Terminated(s) then ""
    else
      var tail := Tail(s[..|s| - 1]) + [s[|s| - 1]];
      assert s[..|s| - 1][..|s| - |tail|] == s[..|s| - |tail|];
      tail
  }

  predicate Blank(s: string) { forall i | 0 <= i < |s| :: IsSpace(s[i]) }

  /** Only the empty key is lowered to the empty key. */
  ghost predicate KeepsKeys(lower: Lowering) { forall key | key != "" :: lower(key) != lower("") }

  /** Whatever is appended overrides what is there, entry by entry. */
  ghost predicate AppendOverrides(lower: Lowering, a: string) {
    forall b :: Parse(lower, a + b) == Parse(lower, a) + Parse(lower, b)
  }

  lemma ParseOneLine(lower: Lowering, line: string)
    requires '\n' !in line
    ensures Parse(lower, line) == ReadLine(lower, line)
  {
    if line != "" {
      IndexOfIs(line, '\n', |line|);
      assert Lines(line) == [line] && [line][..0] == [];
      ReadLinesNext(lower, [line], 0);
      assert [line][..1] == [line];
    }
  }

  lemma IndexOfPrepend(a: string, b: string, c: char)
    requires c !in a
    ensures IndexOf(a + b, c) == |a| + IndexOf(b, c)
  {
    assert forall k | 0 <= k < |a| :: (a + b)[k] == a[k];
    assert forall k | |a| <= k < |a| + IndexOf(b, c) :: (a + b)[k] == b[k - |a|];
    IndexOfIs(a + b, c, |a| + IndexOf(b, c));
  }

  lemma {:induction false} TrimStartPrepend(blank: string, s: string)
    requires Blank(blank)
    ensures TrimStart(blank + s) == TrimStart(s)
  {
    if blank == "" {
      assert blank + s == s;
    } else {
      assert (blank + s)[1..] == blank[1..] + s;
      TrimStartPrepend(blank[1..], s);
    }
  }

  lemma SplitOncePrepend(blank: string, line: string)
    requires '=' !in blank
    ensures SplitOnce(blank + line) ==
      if SplitOnce(line).None? then None else Some((blank + SplitOnce(line).value.0, SplitOnce(line).value.1))
  {
    IndexOfPrepend(blank, line, '=');
    var i := IndexOf(line, '=');
    if i < |line| {
      HeadPrepended(blank, line, i);
      RestPrepended(blank, line, i);
    }
  }

  lemma EntryPrepend(lower: Lowering, blank: string, pair: Pair)
    requires Blank(blank)
    ensures Entry(lower, (blank + pair.0, pair.1)) == Entry(lower, pair)
  {
    TrimPrepend(blank, pair.0);
  }

  lemma ReadLinePrepend(lower: Lowering, blank: string, line: string)
    requires Blank(blank)
    ensures ReadLine(lower, blank + line) == ReadLine(lower, line)
  {
    SplitOncePrepend(blank, line);
    if SplitOnce(line).Some? {
      EntryPrepend(lower, blank, SplitOnce(line).value);
    }
  }

  lemma TrimPrepend(blank: string, s: string)
    requires Blank(blank)
    ensures Trim(blank + s) == Trim(s)
  {
    TrimStartPrepend(blank, s);
  }

  lemma HeadPrepended<T>(a: seq<T>, b: seq<T>, i: nat)
    requires i < |b|
    ensures (a + b)[..|a| + i] == a + b[..i]
  {
  }

  lemma RestPrepended<T>(a: seq<T>, b: seq<T>, i: nat)
    requires i < |b|
    ensures (a + b)[|a| + i + 1..] == b[i + 1..]
  {
  }

  lemma ReadBlankLine(lower: Lowering, line: string)
    requires Blank(line)
    ensures ReadLine(lower, line) == map[] && Blank(StripReturn(line))
  {
    var i := IndexOf(line, '=');
    assert i < |line| ==> IsSpace(line[i]);
  }

  /** Blanks before a block change nothing in it. */
  lemma ParsePrepend(lower: Lowering, blank: string, b: string)
    requires Blank(blank) && '\n' !in blank
    ensures Parse(lower, blank + b) == Parse(lower, b)
  {
    var i := IndexOf(b, '\n');
    if i == |b| {
      assert '\n' !in blank + b by {
        assert b == b[..i];
      }
      ParseOneLine(lower, blank + b);
      ParseOneLine(lower, b);
      ReadLinePrepend(lower, blank, b);
    } else {
      var line, rest := b[..i], b[i + 1..];
      SplitAround(b, i);
      Associative(blank, line + "\n", rest);
      Associative(blank, line, "\n");
      LinesOfLine(line, rest);
      LinesOfLine(blank + line, rest);
      ReadLinesOne(lower, StripReturn(line), Lines(rest));
      ReadLinesOne(lower, StripReturn(blank + line), Lines(rest));
      if line == "" {
        assert blank + line == blank;
        ReadBlankLine(lower, blank);
        ReadBlankLine(lower, StripReturn(blank));
      } else {
        StripReturnPrepend(blank, line);
        ReadLinePrepend(lower, blank, StripReturn(line));
      }
    }
  }

  lemma StripReturnPrepend(a: string, b: string)
    requires b != ""
    ensures StripReturn(a + b) == a + StripReturn(b)
  {
    if b[|b| - 1] == '\r' {
      assert (a + b)[..|a + b| - 1] == a + b[..|b| - 1];
    }
  }

  /** The map of everything up to the last line feed. */
  function Head(lower: Lowering, a: string): Metadata { Parse(lower, a[..|a| - |Tail(a)|]) }

  /** Text is parsed in two parts, split at its last line feed, whatever follows. */
  lemma ParseAtTail(lower: Lowering, a: string, b: string)
    ensures Parse(lower, a + b) == Head(lower, a) + Parse(lower, Tail(a) + b)
  {
    var tail := Tail(a);
    var head := a[..|a| - |tail|];
    assert a == head + tail;
    Associative(head, tail, b);
    ParseAppend(lower, head, tail + b);
  }

  lemma ParseAll(lower: Lowering, a: string)
    ensures Parse(lower, a) == Head(lower, a) + ReadLine(lower, Tail(a))
  {
    ParseAtTail(lower, a, "");
    assert a + "" == a && Tail(a) + "" == Tail(a);
    ParseOneLine(lower, Tail(a));
  }

  lemma ParseOneMore(lower: Lowering, a: string, b: string)
    requires '\n' !in b
    ensures Parse(lower, a + b) == Head(lower, a) + ReadLine(lower, Tail(a) + b)
  {
    ParseAtTail(lower, a, b);
    ParseOneLine(lower, Tail(a) + b);
  }

  /** If the last line adds nothing by itself, nor to what follows, the parts are independent. */
  lemma MergeAround(head: Metadata, tail: Metadata, whole: Metadata, first: Metadata, second: Metadata)
    requires whole == head + second && first == head + tail && tail == map[]
    ensures whole == first + second
  {
  }

  lemma BlankTailAppends(lower: Lowering, a: string, b: string)
    requires Blank(Tail(a))
    ensures Parse(lower, a + b) == Parse(lower, a) + Parse(lower, b)
  {
    ParseAtTail(lower, a, b);
    ParseAll(lower, a);
    ParsePrepend(lower, Tail(a), b);
    ReadBlankLine(lower, Tail(a));
    MergeAround(Head(lower, a), ReadLine(lower, Tail(a)), Parse(lower, a + b), Parse(lower, a), Parse(lower, b));
  }

  lemma ValueOfInjective(a: string, b: string)
    requires ValueOf(a) == ValueOf(b)
    ensures a == b
  {
  }

  /** A letter appended to a value changes it. */
  lemma TrimGrows(s: string)
    ensures Trim(s + "z") != Trim(s)
  {
    TrimStartAppend(s, 'z');
    TrimEndShape(TrimStart(s));
    var t := TrimStart(s + "z");
    assert s + ['z'] == s + "z";
    assert t[|t| - 1] == 'z' && TrimEnd(t) == t;
  }

  lemma ReadKeyValue(lower: Lowering, key: string, value: string)
    requires '=' !in key
    ensures ReadLine(lower, key + "=" + value) == map[lower(Trim(key)) := ValueOf(Trim(value))]
  {
    var line := key + "=" + value;
    assert line == key + ("=" + value);
    IndexOfAfter(key, "=" + value, '=');
    assert line[..|key|] == key && line[|key| + 1..] == value;
  }

  lemma AppendToValue(lower: Lowering, line: string) returns (key: string, value: string, longer: string)
    requires '=' in line
    ensures ReadLine(lower, line) == map[key := ValueOf(value)]
    ensures ReadLine(lower, line + "z") == map[key := ValueOf(longer)]
    ensures value != longer
  {
    var i := IndexOf(line, '=');
    assert i < |line|;
    var k, v := line[..i], line[i + 1..];
    SplitAround(line, i);
    Associative(k + "=", v, "z");
    ReadKeyValue(lower, k, v);
    ReadKeyValue(lower, k, v + "z");
    TrimGrows(v);
    key, value, longer := lower(Trim(k)), Trim(v), Trim(v + "z");
  }

  lemma MergeDiffers(head: Metadata, key: string, value: string, longer: string, whole: Metadata, first: Metadata,
                     block: Metadata)
    requires value != longer && block == map[]
    requires whole == head + map[key := ValueOf(longer)] && first == head + map[key := ValueOf(value)]
    ensures whole != first + block
  {
    assert whole[key] == ValueOf(longer) && (first + block)[key] == ValueOf(value);
    if ValueOf(longer) == ValueOf(value) {
      ValueOfInjective(longer, value);
    }
  }

  /** An unfinished last line with a value: a letter appended changes the value. */
  lemma OpenValueAbsorbs(lower: Lowering, a: string, b: string)
    requires '=' in Tail(a) && b == "z" && '\n' !in b && '=' !in b
    ensures Parse(lower, a + b) != Parse(lower, a) + Parse(lower, b)
  {
    ParseOneMore(lower, a, b);
    ParseAll(lower, a);
    ParseOneLine(lower, b);
    ReadWithoutSeparator(lower, b);
    var key, value, longer := AppendToValue(lower, Tail(a));
    MergeDiffers(Head(lower, a), key, value, longer, Parse(lower, a + b), Parse(lower, a), Parse(lower, b));
  }

  lemma ReadWithoutSeparator(lower: Lowering, line: string)
    requires '=' !in line
    ensures ReadLine(lower, line) == map[]
  {
    IndexOfIs(line, '=', |line|);
  }

  /** An unfinished last line that is only a key so far takes the appended value. */
  lemma KeyTakesValue(lower: Lowering, line: string, c: char)
    requires '=' !in line && !Blank(line) && KeepsKeys(lower) && !IsSpace(c)
    ensures ReadLine(lower, line + ("=" + [c])) == map[lower(Trim(line)) := Str([c])]
    ensures ReadLine(lower, "=" + [c]) == map[lower("") := Str([c])]
    ensures ReadLine(lower, line) == map[] && lower(Trim(line)) != lower("")
  {
    TrimEmpty(line);
    Associative(line, "=", [c]);
    ReadKeyValue(lower, line, [c]);
    assert "" + "=" + [c] == "=" + [c];
    ReadKeyValue(lower, "", [c]);
    TrimFixed([c]);
    TrimFixed("");
    ReadWithoutSeparator(lower, line);
  }

  /** So if appending `=c` does override, the text had that value under that key already. */
  lemma HadValue(head: Metadata, tail: Metadata, key: string, other: string, value: Value,
                 whole: Metadata, first: Metadata, block: Metadata)
    requires key != other && whole == first + block
    requires whole == head + map[key := value] && first == head + tail && tail == map[] && block == map[other := value]
    ensures key in head && head[key] == value
  {
    assert key in whole && whole[key] == value;
  }

  lemma OpenKeyAbsorbs(lower: Lowering, a: string, c: char, b: string)
    requires '=' !in Tail(a) && !Blank(Tail(a)) && KeepsKeys(lower)
    requires !IsSpace(c) && b == "=" + [c] && '\n' !in b
    requires Parse(lower, a + b) == Parse(lower, a) + Parse(lower, b)
    ensures lower(Trim(Tail(a))) in Head(lower, a) && Head(lower, a)[lower(Trim(Tail(a)))] == Str([c])
  {
    ParseOneMore(lower, a, b);
    ParseAll(lower, a);
    ParseOneLine(lower, b);
    KeyTakesValue(lower, Tail(a), c);
    HadValue(Head(lower, a), ReadLine(lower, Tail(a)), lower(Trim(Tail(a))), lower(""), Str([c]),
             Parse(lower, a + b), Parse(lower, a), Parse(lower, b));
  }

  lemma OpenKeyText(b: string, c: char)
    requires |b| == 2 && b[0] == '=' && b[1] == c && c in "pq"
    ensures b == "=" + [c] && '\n' !in b && !IsSpace(c)
  {
  }

  /** Of two values under an empty key, one at least is not what the text had already. */
  lemma OneOfTwoSpoils(lower: Lowering, a: string, p: string, q: string)
    requires '=' !in Tail(a) && !Blank(Tail(a)) && KeepsKeys(lower) && p == "=p" && q == "=q"
    ensures Parse(lower, a + p) != Parse(lower, a) + Parse(lower, p)
      || Parse(lower, a + q) != Parse(lower, a) + Parse(lower, q)
  {
    OpenKeyText(p, 'p');
    OpenKeyText(q, 'q');
    if Parse(lower, a + p) == Parse(lower, a) + Parse(lower, p)
      && Parse(lower, a + q) == Parse(lower, a) + Parse(lower, q) {
      OpenKeyAbsorbs(lower, a, 'p', p);
      OpenKeyAbsorbs(lower, a, 'q', q);
    }
  }

  lemma BlankTailOverrides(lower: Lowering, a: string)
    requires KeepsKeys(lower) && Blank(Tail(a))
    ensures AppendOverrides(lower, a)
  {
    forall b
      ensures Parse(lower, a + b) == Parse(lower, a) + Parse(lower, b)
    {
      BlankTailAppends(lower, a, b);
    }
  }

  lemma OpenTailSpoils(lower: Lowering, a: string) returns (b: string)
    requires KeepsKeys(lower) && !Blank(Tail(a))
    ensures Parse(lower, a + b) != Parse(lower, a) + Parse(lower, b)
  {
    if '=' in Tail(a) {
      b := "z";
      OpenValueAbsorbs(lower, a, b);
    } else {
      OneOfTwoSpoils(lower, a, "=p", "=q");
      b := if Parse(lower, a + "=p") != Parse(lower, a) + Parse(lower, "=p") then "=p" else "=q";
    }
  }

  /**
   Appending a block overrides entry by entry, whatever the block, if and only if the text
   before it ends in a line feed or in blanks after one.
   */
  lemma AppendOverridesIffBlankTail(lower: Lowering, a: string)
    requires KeepsKeys(lower)
    ensures AppendOverrides(lower, a) <==> Blank(Tail(a))
  {
    if Blank(Tail(a)) {
      BlankTailOverrides(lower, a);
    } else {
      var b := OpenTailSpoils(lower, a);
    }
  }
}
