// The XDG autostart entry: how its `Exec` line is written, and how a desktop reads it.
//
// The reader follows these rules of the Desktop Entry Specification: a string value holds no control
// characters and undoes the escapes \s, \n, \t, \r and \\ (section 4); arguments are separated by spaces,
// one with a reserved character must be quoted as a whole, inside quotes a double quote, backtick, dollar
// sign and backslash are escaped with a backslash, %% stands for a percent sign, and the program has no
// equals sign in it (section 7). The entry is that of an application with a name (section 6), and neither
// asks for a terminal nor is switched off. Any other field code, and anything the rules do not allow, is
// refused.
// Characters outside ASCII are taken as they are.
module DesktopEntry {
  import opened Wrappers
  import opened Autostart

  function Words(launch: Launch): seq<string> {
    [launch.exe] + launch.args
  }

  // ── Writing ──────────────────────────────────────────────────────────

  const RESERVED: string := " \t\n\"'\\><~|&;$*?#()`"
  const ESCAPED_IN_QUOTES: string := "\"`$\\"

  predicate NeedsQuotes(word: string) {
    word == "" || exists c <- word :: c in RESERVED
  }

  // `s` with every `c` written twice.
  function Doubled(s: string, c: char): string {
    if s == "" then ""
    else (if s[0] == c then [c, c] else [s[0]]) + Doubled(s[1..], c)
  }

  function Escaped(word: string): string {
    if word == "" then ""
    else (if word[0] in ESCAPED_IN_QUOTES then ['\\', word[0]] else [word[0]]) + Escaped(word[1..])
  }

  // A word by the quoting rules alone, before the string-value layer.
  function InQuotes(word: string): string {
    if !NeedsQuotes(word) then Doubled(word, '%') else "\"" + Escaped(Doubled(word, '%')) + "\""
  }

  method Replace(s: string, c: char) returns (r: string)
    ensures r == Doubled(s, c)
  {
    r := "";
    for i := 0 to |s|
      invariant r + Doubled(s[i..], c) == Doubled(s, c)
    {
      assert s[i..][1..] == s[i + 1..];
      if s[i] == c {
        r := r + [c, c];
      } else {
        r := r + [s[i]];
      }
    }
  }

  // One word of an `Exec` line, in both layers.
  method Quote(word: string) returns (quoted: string)
    ensures quoted == Doubled(InQuotes(word), '\\')
  {
    hide NeedsQuotes, Doubled, Escaped;
    var doubled := Replace(word, '%');
    if !NeedsQuotes(word) {
      NothingToDouble(word);
      return doubled;
    }
    quoted := "\"";
    for i := 0 to |doubled|
      invariant quoted + Escaped(doubled[i..]) == "\"" + Escaped(doubled)
    {
      EscapedOneMore(quoted, doubled, i);
      var c := doubled[i];
      if c in ESCAPED_IN_QUOTES {
        quoted := quoted + ['\\'];
      }
      quoted := quoted + [c];
    }
    NothingToEscape(quoted, doubled);
    quoted := quoted + "\"";
    assert quoted == InQuotes(word);
    quoted := Replace(quoted, '\\');
  }

  lemma EscapedOneMore(start: string, word: string, i: nat)
    requires i < |word|
    ensures start + Escaped(word[i..]) ==
            (if word[i] in ESCAPED_IN_QUOTES then start + ['\\'] + [word[i]] else start + [word[i]])
            + Escaped(word[i + 1..])
  {
    assert word[i..][1..] == word[i + 1..];
  }

  lemma NothingToEscape(start: string, word: string)
    ensures start + Escaped(word[|word|..]) == start
  {
  }

  lemma {:induction false} DoubledAbsent(s: string, c: char)
    requires c !in s
    ensures Doubled(s, c) == s
  {
    if s == "" {
    } else {
      DoubledAbsent(s[1..], c);
    }
  }

  lemma {:induction false} DoubledHas(s: string, c: char, d: char)
    ensures d in Doubled(s, c) <==> d in s
  {
    if s == "" {
    } else {
      DoubledHas(s[1..], c, d);
    }
  }

  lemma NothingToDouble(word: string)
    requires !NeedsQuotes(word)
    ensures Doubled(Doubled(word, '%'), '\\') == Doubled(word, '%')
  {
    assert '\\' in RESERVED;
    DoubledHas(word, '%', '\\');
    DoubledAbsent(Doubled(word, '%'), '\\');
  }

  lemma {:induction false} DoubledIsLonger(s: string, c: char)
    ensures |Doubled(s, c)| >= |s| && (c in s ==> |Doubled(s, c)| > |s|)
  {
    if s == "" {
    } else {
      DoubledIsLonger(s[1..], c);
    }
  }

  lemma {:induction false} EscapedIsLonger(s: string)
    ensures |Escaped(s)| >= |s|
  {
    if s == "" {
    } else {
      EscapedIsLonger(s[1..]);
    }
  }

  // A word is written as it is if and only if it is not empty and has no reserved character and no percent
  // sign.
  lemma WrittenPlain(word: string)
    ensures Doubled(InQuotes(word), '\\') == word <==>
            word != "" && forall c <- word :: !IsReserved(c) && c !in {' ', '%'}
  {
    hide Doubled, Escaped;
    DoubledIsLonger(word, '%');
    EscapedIsLonger(Doubled(word, '%'));
    DoubledIsLonger(InQuotes(word), '\\');
    if '%' !in word {
      DoubledAbsent(word, '%');
    }
    if '\\' !in word {
      DoubledAbsent(word, '\\');
    }
    ReservedSet(word);
  }

  lemma ReservedSet(word: string)
    ensures NeedsQuotes(word) <==> word == "" || exists c <- word :: IsReserved(c) || c == ' '
  {
  }

  // The words, by the quoting rules alone, with a space between each two.
  function Joined(words: seq<string>): string {
    if words == [] then ""
    else if |words| == 1 then InQuotes(words[0])
    else Joined(words[..|words| - 1]) + " " + InQuotes(words[|words| - 1])
  }

  const GROUP: string := "[Desktop Entry]"
  const TYPE: string := "Type=Application"
  const NAME: string := "Name=Telepad"
  const COMMENT: string := "Comment=Use your phone as a trackpad" + " and keyboard for this computer"
  const HEADER: seq<string> := [GROUP, TYPE, NAME, COMMENT]

  const TERMINAL: string := "Terminal=false"
  const CATEGORIES: string := "Categories=Utility;"
  const ENABLED: string := "X-GNOME-Autostart-enabled=true"
  const FOOTER: seq<string> := [TERMINAL, CATEGORIES, ENABLED]

  function Lines(lines: seq<string>): string {
    if lines == [] then "" else lines[0] + "\n" + Lines(lines[1..])
  }

  function EntryText(launch: Launch): string {
    Lines(HEADER) + "Exec=" + Doubled(Joined(Words(launch)), '\\') + "\n" + Lines(FOOTER)
  }

  // The text of the entry.
  method Entry(launch: Launch) returns (text: string)
    ensures text == EntryText(launch)
  {
    hide InQuotes, Doubled, Lines;
    var words := Words(launch);
    var command := "";
    for i := 0 to |words|
      invariant command == if i == 0 then "" else Doubled(Joined(words[..i]), '\\')
    {
      var quoted := Quote(words[i]);
      NextWord(words, i);
      if i != 0 {
        command := command + " ";
      }
      command := command + quoted;
    }
    assert words[..|words|] == words;
    text := Lines(HEADER) + "Exec=" + command + "\n" + Lines(FOOTER);
  }

  lemma NextWord(words: seq<string>, i: nat)
    requires i < |words|
    ensures Doubled(Joined(words[..i + 1]), '\\')
            == (if i == 0 then "" else Doubled(Joined(words[..i]), '\\') + " ") + Doubled(InQuotes(words[i]), '\\')
  {
    hide InQuotes;
    assert words[..i + 1][..i] == words[..i];
    if i != 0 {
      DoubledConcat(Joined(words[..i]) + " ", InQuotes(words[i]), '\\');
      DoubledConcat(Joined(words[..i]), " ", '\\');
      DoubledAbsent(" ", '\\');
    }
  }

  lemma {:induction false} DoubledConcat(a: string, b: string, c: char)
    ensures Doubled(a + b, c) == Doubled(a, c) + Doubled(b, c)
  {
    if a == "" {
      assert a + b == b;
    } else {
      assert (a + b)[1..] == a[1..] + b;
      DoubledConcat(a[1..], b, c);
    }
  }

  // ── Reading ──────────────────────────────────────────────────────────

  // The first place of a line break in `s`, or its end.
  function LineEnd(s: string): (i: nat)
    ensures i <= |s| && '\n' !in s[..i]
    ensures i < |s| ==> s[i] == '\n'
  {
    if s == "" || s[0] == '\n' then 0 else 1 + LineEnd(s[1..])
  }

  // What `key` is set to: the rest of the first line that starts with it.
  function KeyValue(text: string, key: string): Option<string>
    decreases |text|
  {
    var end := LineEnd(text);
    if key <= text[..end] then Some(text[..end][|key|..])
    else if end == |text| then None
    else KeyValue(text[end + 1..], key)
  }

  // An entry for an application that is started without a terminal and not switched off.
  predicate StartsApplication(text: string) {
    && text[..LineEnd(text)] == "[Desktop Entry]"
    && KeyValue(text, "Type=") == Some("Application") && KeyValue(text, "Name=").Some?
    && KeyValue(text, "Terminal=") != Some("true")
    && KeyValue(text, "X-GNOME-Autostart-enabled=") != Some("false")
  }

  // The string-value layer.
  function Unescaped(value: string): Option<string> {
    if value == "" then Some("")
    else if value[0] != '\\' then Before([value[0]], Unescaped(value[1..]))
    else if |value| == 1 then None
    else
      match value[1]
      case 's' => Before(" ", Unescaped(value[2..]))
      case 'n' => Before("\n", Unescaped(value[2..]))
      case 't' => Before("\t", Unescaped(value[2..]))
      case 'r' => Before("\r", Unescaped(value[2..]))
      case '\\' => Before("\\", Unescaped(value[2..]))
      case _ => None
  }

  function Before(start: string, rest: Option<string>): Option<string> {
    match rest case None => None case Some(r) => Some(start + r)
  }

  // The rest of a quoted argument, and what follows its closing quote.
  function ReadQuoted(s: string): (r: Option<(string, string)>)
    ensures r.Some? ==> |r.value.1| < |s|
  {
    if s == "" then None
    else if s[0] == '"' then Some(("", s[1..]))
    else if s[0] == '\\' then
      if |s| == 1 || s[1] !in {'"', '`', '$', '\\'} then None else Prefixed(s[1], ReadQuoted(s[2..]))
    else if s[0] in {'`', '$'} then None
    else Prefixed(s[0], ReadQuoted(s[1..]))
  }

  predicate IsReserved(c: char) {
    || c in {'\t', '\n', '"', '\'', '\\', '>', '<', '~'}
    || c in {'|', '&', ';', '$', '*', '?', '#', '(', ')', '`'}
  }

  // The rest of an argument without quotes, up to a space.
  function ReadBare(s: string): (r: Option<(string, string)>)
    ensures r.Some? ==> |r.value.1| <= |s|
  {
    if s == "" || s[0] == ' ' then Some(("", s))
    else if IsReserved(s[0]) then None
    else Prefixed(s[0], ReadBare(s[1..]))
  }

  function Prefixed(c: char, r: Option<(string, string)>): Option<(string, string)> {
    match r case None => None case Some((word, rest)) => Some(([c] + word, rest))
  }

  function ReadWord(s: string): (r: Option<(string, string)>)
    requires s != "" && s[0] != ' '
    ensures r.Some? ==> |r.value.1| < |s|
  {
    if s[0] == '"' then
      match ReadQuoted(s[1..])
      case None => None
      case Some((word, rest)) => if rest == "" || rest[0] == ' ' then Some((word, rest)) else None
    else
      FirstBare(s);
      ReadBare(s)
  }

  lemma FirstBare(s: string)
    requires s != "" && s[0] != ' '
    ensures ReadBare(s).Some? ==> |ReadBare(s).value.1| < |s|
  {
  }

  function ReadWords(s: string): Option<seq<string>>
    decreases |s|
  {
    if s == "" then Some([])
    else if s[0] == ' ' then ReadWords(s[1..])
    else
      match ReadWord(s)
      case None => None
      case Some((word, rest)) =>
        match ReadWords(rest) case None => None case Some(words) => Some([word] + words)
  }

  // Undoes `%%`; any other field code would be replaced by something else.
  function Percent(word: string): Option<string> {
    if word == "" then Some("")
    else if word[0] != '%' then Before([word[0]], Percent(word[1..]))
    else if |word| >= 2 && word[1] == '%' then Before("%", Percent(word[2..]))
    else None
  }

  function Percents(words: seq<string>): Option<seq<string>> {
    if words == [] then Some([])
    else
      match (Percent(words[0]), Percents(words[1..]))
      case (Some(word), Some(rest)) => Some([word] + rest)
      case _ => None
  }

  // The control characters of ASCII.
  predicate IsControl(c: char) {
    c < ' ' || c == '\U{7F}'
  }

  predicate HasControl(s: string) {
    exists c <- s :: IsControl(c)
  }

  // The words of a value, the program first.
  function ReadValue(value: string): Option<seq<string>> {
    match Unescaped(value)
    case None => None
    case Some(line) =>
      match ReadWords(line)
      case None => None
      case Some(words) => Percents(words)
  }

  // The program and arguments a desktop starts, if the entry is a valid one.
  function ReadEntry(text: string): Option<seq<string>> {
    match KeyValue(text, "Exec=")
    case None => None
    case Some(value) =>
      if HasControl(value) || !StartsApplication(text) then None
      else
        match ReadValue(value)
        case None => None
        case Some(words) => if words == [] || '=' in words[0] then None else Some(words)
  }

  // ── Each layer undone ────────────────────────────────────────────────

  lemma {:induction false} UnescapeUndoesDoubling(s: string)
    ensures Unescaped(Doubled(s, '\\')) == Some(s)
  {
    if s == "" {
    } else {
      UnescapeUndoesDoubling(s[1..]);
      var value := Doubled(s, '\\');
      if s[0] == '\\' {
        assert value[2..] == Doubled(s[1..], '\\');
      } else {
        assert value[1..] == Doubled(s[1..], '\\');
      }
      assert [s[0]] + s[1..] == s;
    }
  }

  lemma {:induction false} PercentUndoesDoubling(word: string)
    ensures Percent(Doubled(word, '%')) == Some(word)
  {
    if word == "" {
    } else {
      PercentUndoesDoubling(word[1..]);
      var doubled := Doubled(word, '%');
      if word[0] == '%' {
        assert doubled[2..] == Doubled(word[1..], '%');
      } else {
        assert doubled[1..] == Doubled(word[1..], '%');
      }
      assert [word[0]] + word[1..] == word;
    }
  }

  // What a reader can meet after a word.
  predicate AtSpace(tail: string) {
    tail == "" || tail[0] == ' '
  }

  lemma {:induction false} ReadEscaped(word: string, tail: string)
    ensures ReadQuoted(Escaped(word) + "\"" + tail) == Some((word, tail))
  {
    hide ReadQuoted, Escaped;
    if word == "" {
      ReadClosing(tail);
    } else {
      ReadEscaped(word[1..], tail);
      var after := Escaped(word[1..]) + "\"" + tail;
      ReadOneEscaped(word[0], after);
      var start := if word[0] in ESCAPED_IN_QUOTES then ['\\', word[0]] else [word[0]];
      EscapedFirst(word);
      assert Escaped(word) + "\"" + tail == start + after;
      assert [word[0]] + word[1..] == word;
    }
  }

  lemma EscapedFirst(word: string)
    requires word != ""
    ensures Escaped(word) == (if word[0] in ESCAPED_IN_QUOTES then ['\\', word[0]] else [word[0]]) + Escaped(word[1..])
  {
  }

  lemma ReadClosing(tail: string)
    ensures ReadQuoted(Escaped("") + "\"" + tail) == Some(("", tail))
  {
    var s := Escaped("") + "\"" + tail;
    assert s[0] == '"' && s[1..] == tail;
  }

  lemma ReadOneEscaped(c: char, after: string)
    ensures var start := if c in ESCAPED_IN_QUOTES then ['\\', c] else [c];
            ReadQuoted(start + after) == Prefixed(c, ReadQuoted(after))
  {
    var start := if c in ESCAPED_IN_QUOTES then ['\\', c] else [c];
    assert (start + after)[|start|..] == after;
  }

  lemma {:induction false} ReadBareWord(word: string, tail: string)
    requires AtSpace(tail) && forall c <- word :: c !in RESERVED
    ensures ReadBare(word + tail) == Some((word, tail))
  {
    if word == "" {
      assert word + tail == tail;
    } else {
      assert word[0] in word && word[0] != ' ';
      ReadBareWord(word[1..], tail);
      assert (word + tail)[1..] == word[1..] + tail;
      assert [word[0]] + word[1..] == word;
    }
  }

  lemma {:induction false} DoubledNotEmpty(word: string, c: char)
    ensures Doubled(word, c) == "" <==> word == ""
  {
  }

  lemma ReadInQuotes(word: string, tail: string)
    requires AtSpace(tail)
    ensures InQuotes(word) != "" && InQuotes(word)[0] != ' '
    ensures ReadWord(InQuotes(word) + tail) == Some((Doubled(word, '%'), tail))
  {
    hide Doubled, Escaped, ReadQuoted, ReadBare, ReadWord;
    var doubled := Doubled(word, '%');
    if NeedsQuotes(word) {
      ReadEscaped(doubled, tail);
      ReadWordInQuotes(Escaped(doubled), tail, doubled);
    } else {
      BareIsPlain(word);
      ReadBareWord(doubled, tail);
      ReadWordBare(doubled, tail);
    }
  }

  lemma ReadWordInQuotes(inside: string, tail: string, word: string)
    requires AtSpace(tail) && ReadQuoted(inside + "\"" + tail) == Some((word, tail))
    ensures ReadWord("\"" + inside + "\"" + tail) == Some((word, tail))
  {
    hide ReadQuoted, ReadBare;
    assert ("\"" + inside + "\"" + tail)[1..] == inside + "\"" + tail;
  }

  lemma ReadWordBare(word: string, tail: string)
    requires word != "" && word[0] !in RESERVED && ReadBare(word + tail) == Some((word, tail))
    ensures ReadWord(word + tail) == Some((word, tail))
  {
    hide ReadQuoted, ReadBare;
    assert '"' in RESERVED && ' ' in RESERVED;
  }

  lemma BareIsPlain(word: string)
    requires !NeedsQuotes(word)
    ensures forall c <- Doubled(word, '%') :: c !in RESERVED
    ensures Doubled(word, '%') != "" && Doubled(word, '%')[0] !in RESERVED
  {
    hide Doubled;
    var doubled := Doubled(word, '%');
    forall c | c in doubled ensures c !in RESERVED {
      DoubledHas(word, '%', c);
    }
    DoubledNotEmpty(word, '%');
    assert doubled[0] in doubled;
  }

  function AllDoubled(words: seq<string>): seq<string> {
    if words == [] then [] else AllDoubled(words[..|words| - 1]) + [Doubled(words[|words| - 1], '%')]
  }

  function Followed(words: seq<string>, rest: Option<seq<string>>): Option<seq<string>> {
    match rest case None => None case Some(more) => Some(words + more)
  }

  lemma ReadOneWord(word: string, tail: string)
    requires AtSpace(tail)
    ensures ReadWords(InQuotes(word) + tail) == Followed([Doubled(word, '%')], ReadWords(tail))
  {
    hide InQuotes, ReadWord;
    ReadInQuotes(word, tail);
  }

  lemma FollowedTwice(a: seq<string>, b: string, rest: Option<seq<string>>)
    ensures Followed(a, Followed([b], rest)) == Followed(a + [b], rest)
    ensures Followed([], rest) == rest
  {
    if rest.Some? {
      assert a + ([b] + rest.value) == a + [b] + rest.value;
      assert [] + rest.value == rest.value;
    }
  }

  // The last word apart.
  lemma JoinedApart(words: seq<string>, tail: string)
    requires words != []
    ensures var before, last := words[..|words| - 1], words[|words| - 1];
            && AllDoubled(words) == AllDoubled(before) + [Doubled(last, '%')]
            && Joined(words) + tail == if before == [] then InQuotes(last) + tail
                                       else Joined(before) + (" " + (InQuotes(last) + tail))
  {
    hide InQuotes, Doubled;
  }

  lemma {:induction false} ReadJoined(words: seq<string>, tail: string)
    requires words != [] && AtSpace(tail)
    ensures ReadWords(Joined(words) + tail) == Followed(AllDoubled(words), ReadWords(tail))
  {
    hide InQuotes, ReadWords, Joined, AllDoubled, Doubled, Followed;
    var before, last := words[..|words| - 1], words[|words| - 1];
    ReadOneWord(last, tail);
    JoinedApart(words, tail);
    FollowedTwice(AllDoubled(before), Doubled(last, '%'), ReadWords(tail));
    if before == [] {
      NothingDoubled();
      assert [] + [Doubled(last, '%')] == [Doubled(last, '%')];
    } else {
      ReadJoined(before, " " + (InQuotes(last) + tail));
      ReadAfterSpace(InQuotes(last) + tail);
    }
  }

  lemma NothingDoubled()
    ensures AllDoubled([]) == []
  {
  }

  lemma ReadAfterSpace(next: string)
    ensures ReadWords(" " + next) == ReadWords(next)
  {
    assert (" " + next)[1..] == next;
  }

  lemma {:induction false} PercentsConcat(a: seq<string>, b: string, c: string)
    requires Percent(b) == Some(c) && Percents(a).Some?
    ensures Percents(a + [b]) == Some(Percents(a).value + [c])
  {
    hide Percent;
    if a == [] {
      assert a + [b] == [b];
      assert [b][1..] == [];
      assert Percents([b]) == Some([c] + []);
      assert Percents(a).value + [c] == [c] + [];
    } else {
      PercentsConcat(a[1..], b, c);
      assert (a + [b])[1..] == a[1..] + [b];
      var first, rest := Percent(a[0]).value, Percents(a[1..]).value;
      assert [first] + (rest + [c]) == [first] + rest + [c];
    }
  }

  lemma {:induction false} PercentsUndoDoubling(words: seq<string>)
    ensures Percents(AllDoubled(words)) == Some(words)
  {
    hide Percent, Doubled;
    if words == [] {
    } else {
      var before, last := words[..|words| - 1], words[|words| - 1];
      PercentsUndoDoubling(before);
      PercentUndoesDoubling(last);
      PercentsConcat(AllDoubled(before), Doubled(last, '%'), last);
      assert words == before + [last];
    }
  }

  // ── Line breaks ──────────────────────────────────────────────────────

  lemma {:induction false} LineEndOf(line: string, rest: string)
    requires '\n' !in line
    ensures LineEnd(line + "\n" + rest) == |line|
  {
    if line == "" {
    } else {
      LineEndOf(line[1..], rest);
      assert (line + "\n" + rest)[1..] == line[1..] + "\n" + rest;
    }
  }

  // A whole line that does not set `key`.
  predicate IsOther(line: string, key: string) {
    '\n' !in line && !(key <= line)
  }

  lemma SkipLine(line: string, rest: string, key: string)
    requires IsOther(line, key)
    ensures KeyValue(line + "\n" + rest, key) == KeyValue(rest, key)
  {
    LineEndOf(line, rest);
    var text := line + "\n" + rest;
    assert text[..|line|] == line && text[|line| + 1..] == rest;
  }

  lemma {:induction false} SkipLines(lines: seq<string>, rest: string, key: string)
    requires forall line <- lines :: IsOther(line, key)
    ensures KeyValue(Lines(lines) + rest, key) == KeyValue(rest, key)
  {
    hide IsOther, KeyValue, LineEnd;
    if lines == [] {
      assert Lines(lines) + rest == rest;
    } else {
      assert forall line <- lines[1..] :: line in lines;
      SkipLines(lines[1..], rest, key);
      SkipLine(lines[0], Lines(lines[1..]) + rest, key);
      assert Lines(lines) + rest == lines[0] + "\n" + (Lines(lines[1..]) + rest);
    }
  }

  // A line that starts otherwise sets another key.
  lemma OtherStart(line: string, key: string, i: nat)
    requires '\n' !in line && i < |line| && i < |key| && line[i] != key[i]
    ensures IsOther(line, key)
  {
  }

  lemma FirstHeaderLines()
    ensures '\n' !in GROUP && GROUP != "" && GROUP[0] == '['
    ensures '\n' !in TYPE && |TYPE| > 1 && TYPE[0] == 'T' && TYPE[1] == 'y'
  {
  }

  lemma LastHeaderLines()
    ensures '\n' !in NAME && NAME != "" && NAME[0] == 'N'
    ensures '\n' !in COMMENT && COMMENT != "" && COMMENT[0] == 'C'
  {
  }

  // None of the header's lines sets one of these keys.
  lemma HeaderIsOther(key: string)
    requires |key| > 1 && (key[0] in {'E', 'X'} || (key[0] == 'T' && key[1] == 'e'))
    ensures forall line <- HEADER :: IsOther(line, key)
  {
    hide IsOther;
    FirstHeaderLines();
    LastHeaderLines();
    OtherStart(GROUP, key, 0);
    OtherStart(TYPE, key, if key[0] == 'T' then 1 else 0);
    OtherStart(NAME, key, 0);
    OtherStart(COMMENT, key, 0);
  }

  lemma {:induction false} DoubledCut(s: string)
    ensures Doubled(s, '\\')[..LineEnd(Doubled(s, '\\'))] == Doubled(s[..LineEnd(s)], '\\')
  {
    if s != "" && s[0] != '\n' {
      DoubledCut(s[1..]);
      assert s[..LineEnd(s)][1..] == s[1..][..LineEnd(s[1..])];
      var d := Doubled(s, '\\');
      if s[0] == '\\' {
        assert d[1..][1..] == Doubled(s[1..], '\\');
        assert LineEnd(d) == 1 + LineEnd(d[1..]) == 2 + LineEnd(Doubled(s[1..], '\\'));
      } else {
        assert d[1..] == Doubled(s[1..], '\\');
      }
    }
  }

  // The line that sets `Exec` ends at its first line break.
  lemma ValueOfLine(key: string, value: string, rest: string)
    requires '\n' !in key
    ensures KeyValue(key + value + "\n" + rest, key) == Some(value[..LineEnd(value)])
  {
    var end := LineEnd(value);
    var text := key + value + "\n" + rest;
    var line := key + value[..end];
    var after := if end == |value| then rest else value[end + 1..] + "\n" + rest;
    hide LineEnd;
    LineApart(key, value, end, rest);
    LineEndOf(line, after);
    assert text[..|line|] == line;
  }

  lemma LineApart(key: string, value: string, end: nat, rest: string)
    requires end <= |value| && (end < |value| ==> value[end] == '\n')
    ensures key + value + "\n" + rest
            == key + value[..end] + "\n" + if end == |value| then rest else value[end + 1..] + "\n" + rest
  {
  }

  // The value a reader finds is the command line up to its first line break.
  lemma ExecValueOf(launch: Launch)
    ensures var line := Joined(Words(launch));
            KeyValue(EntryText(launch), "Exec=") == Some(Doubled(line[..LineEnd(line)], '\\'))
  {
    hide Joined, Lines, KeyValue, LineEnd, Doubled, IsOther;
    var line := Joined(Words(launch));
    var value := Doubled(line, '\\');
    HeaderIsOther("Exec=");
    SkipLines(HEADER, "Exec=" + value + "\n" + Lines(FOOTER), "Exec=");
    assert EntryText(launch) == Lines(HEADER) + ("Exec=" + value + "\n" + Lines(FOOTER));
    DoubledCut(line);
    ValueOfLine("Exec=", value, Lines(FOOTER));
  }

  // ── The other keys ───────────────────────────────────────────────────

  lemma {:induction false} LinesConcat(a: seq<string>, b: seq<string>)
    ensures Lines(a + b) == Lines(a) + Lines(b)
  {
    if a == [] {
      assert a + b == b;
    } else {
      LinesConcat(a[1..], b);
      assert (a + b)[1..] == a[1..] + b;
    }
  }

  // The first of the lines to set the key.
  lemma FoundInLines(lines: seq<string>, i: nat, key: string, value: string)
    requires i < |lines| && lines[i] == key + value && '\n' !in key && '\n' !in value
    requires forall j :: 0 <= j < i ==> IsOther(lines[j], key)
    ensures KeyValue(Lines(lines), key) == Some(value)
  {
    hide IsOther, KeyValue;
    assert lines == lines[..i] + lines[i..];
    LinesConcat(lines[..i], lines[i..]);
    SkipLines(lines[..i], Lines(lines[i..]), key);
    ValueOfLine(key, value, Lines(lines[i + 1..]));
    assert lines[i..][1..] == lines[i + 1..];
    WholeLine(value);
  }

  lemma {:induction false} WholeLine(value: string)
    requires '\n' !in value
    ensures LineEnd(value) == |value| && value[..LineEnd(value)] == value
  {
    if value == "" {
    } else {
      WholeLine(value[1..]);
    }
  }

  // An entry of whole lines.
  function AllLines(exec: string): seq<string> {
    HEADER + [exec] + FOOTER
  }

  lemma HeaderKeys(exec: string)
    ensures KeyValue(Lines(AllLines(exec)), "Type=") == Some("Application")
    ensures KeyValue(Lines(AllLines(exec)), "Name=").Some?
  {
    hide KeyValue, Lines, IsOther;
    var lines := AllLines(exec);
    FirstHeaderLines();
    OtherStart(GROUP, "Type=", 0);
    OtherStart(GROUP, "Name=", 0);
    OtherStart(TYPE, "Name=", 0);
    assert TYPE == "Type=" + "Application" && NAME == "Name=" + "Telepad";
    FoundInLines(lines, 1, "Type=", "Application");
    FoundInLines(lines, 2, "Name=", "Telepad");
  }

  // Nor does a command of one line hide what comes after it.
  lemma TerminalKey(exec: string)
    requires '\n' !in exec && exec != "" && exec[0] == 'E'
    ensures KeyValue(Lines(AllLines(exec)), "Terminal=") == Some("false")
  {
    hide KeyValue, Lines, IsOther;
    var lines, key := AllLines(exec), "Terminal=";
    HeaderIsOther(key);
    OtherStart(exec, key, 0);
    assert forall j :: 0 <= j < 5 ==> lines[j] in HEADER || lines[j] == exec;
    assert TERMINAL == key + "false";
    FoundInLines(lines, 5, key, "false");
  }

  lemma EnabledKey(exec: string)
    requires '\n' !in exec && exec != "" && exec[0] == 'E'
    ensures KeyValue(Lines(AllLines(exec)), "X-GNOME-Autostart-enabled=") == Some("true")
  {
    hide KeyValue, Lines, IsOther;
    var lines, key := AllLines(exec), "X-GNOME-Autostart-enabled=";
    HeaderIsOther(key);
    OtherStart(exec, key, 0);
    OtherStart(TERMINAL, key, 0);
    OtherStart(CATEGORIES, key, 0);
    assert forall j :: 0 <= j < 7 ==> lines[j] in HEADER || lines[j] in {exec, TERMINAL, CATEGORIES};
    assert ENABLED == key + "true";
    FoundInLines(lines, 7, key, "true");
  }

  lemma FirstLine(exec: string)
    ensures var text := Lines(AllLines(exec)); text[..LineEnd(text)] == "[Desktop Entry]"
  {
    hide LineEnd;
    FirstHeaderLines();
    var text, rest := Lines(AllLines(exec)), Lines(AllLines(exec)[1..]);
    assert text == GROUP + "\n" + rest;
    LineEndOf(GROUP, rest);
    assert text[..|GROUP|] == GROUP;
  }

  lemma EntryStartsApplication(launch: Launch)
    requires '\n' !in Joined(Words(launch))
    ensures StartsApplication(EntryText(launch))
  {
    hide Joined, Doubled, KeyValue, LineEnd, Lines;
    var value := Doubled(Joined(Words(launch)), '\\');
    DoubledHas(Joined(Words(launch)), '\\', '\n');
    var exec := "Exec=" + value;
    LinesConcat(HEADER + [exec], FOOTER);
    LinesConcat(HEADER, [exec]);
    OneLine(exec);
    assert EntryText(launch) == Lines(AllLines(exec));
    FirstLine(exec);
    HeaderKeys(exec);
    TerminalKey(exec);
    EnabledKey(exec);
  }

  lemma OneLine(line: string)
    ensures Lines([line]) == line + "\n"
  {
    assert [line][1..] == [];
  }

  // Writing a word adds no characters but quotes and backslashes, and loses none.
  lemma InQuotesHas(word: string, c: char)
    requires c != '"' && c != '\\'
    ensures c in InQuotes(word) <==> c in word
  {
    DoubledHas(word, '%', c);
    EscapedHas(Doubled(word, '%'), c);
  }

  lemma {:induction false} EscapedHas(word: string, c: char)
    requires c != '\\'
    ensures c in Escaped(word) <==> c in word
  {
    if word == "" {
    } else {
      EscapedHas(word[1..], c);
      assert word == [word[0]] + word[1..];
    }
  }

  lemma {:induction false} JoinedHas(words: seq<string>, c: char)
    requires c != '"' && c != '\\' && c != ' '
    ensures c in Joined(words) <==> exists word <- words :: c in word
  {
    hide InQuotes;
    if words == [] {
    } else {
      var before, last := words[..|words| - 1], words[|words| - 1];
      assert words == before + [last];
      JoinedHas(before, c);
      InQuotesHas(last, c);
    }
  }

  lemma {:induction false} ReadQuotedLineBreaks(s: string)
    requires '\n' !in s && ReadQuoted(s).Some?
    ensures '\n' !in ReadQuoted(s).value.0 && '\n' !in ReadQuoted(s).value.1
  {
    if s[0] == '\\' {
      ReadQuotedLineBreaks(s[2..]);
    } else if s[0] != '"' {
      ReadQuotedLineBreaks(s[1..]);
    }
  }

  lemma {:induction false} ReadBareLineBreaks(s: string)
    requires '\n' !in s && ReadBare(s).Some?
    ensures '\n' !in ReadBare(s).value.0 && '\n' !in ReadBare(s).value.1
  {
    if s != "" && s[0] != ' ' {
      ReadBareLineBreaks(s[1..]);
    }
  }

  lemma {:induction false} ReadWordsLineBreaks(s: string)
    requires '\n' !in s && ReadWords(s).Some?
    ensures forall word <- ReadWords(s).value :: '\n' !in word
    decreases |s|
  {
    if s == "" {
    } else {
      if s[0] == ' ' {
        ReadWordsLineBreaks(s[1..]);
      } else {
        var (word, rest) := ReadWord(s).value;
        if s[0] == '"' {
          ReadQuotedLineBreaks(s[1..]);
        } else {
          ReadBareLineBreaks(s);
        }
        ReadWordsLineBreaks(rest);
      }
    }
  }

  lemma {:induction false} PercentLineBreaks(word: string)
    requires '\n' !in word && Percent(word).Some?
    ensures '\n' !in Percent(word).value
  {
    if word == "" {
    } else {
      PercentLineBreaks(if word[0] == '%' then word[2..] else word[1..]);
    }
  }

  lemma {:induction false} PercentsLineBreaks(words: seq<string>)
    requires (forall word <- words :: '\n' !in word) && Percents(words).Some?
    ensures forall word <- Percents(words).value :: '\n' !in word
  {
    if words == [] {
    } else {
      PercentLineBreaks(words[0]);
      PercentsLineBreaks(words[1..]);
    }
  }

  // ── The round trip ───────────────────────────────────────────────────

  // Up to the first line break, the value reads back as the words that are there whole.
  lemma ValueReadsBack(words: seq<string>)
    requires words != []
    ensures ReadValue(Doubled(Joined(words), '\\')) == Some(words)
  {
    hide Doubled, Joined, ReadWords, Unescaped, Percents;
    var line := Joined(words);
    UnescapeUndoesDoubling(line);
    assert AtSpace("") && line + "" == line;
    ReadJoined(words, "");
    assert ReadWords("") == Some([]) by { NoWords(); }
    assert AllDoubled(words) + [] == AllDoubled(words);
    PercentsUndoDoubling(words);
  }

  lemma NoWords()
    ensures ReadWords("") == Some([])
  {
  }

  lemma ValueHasNoLineBreak(cut: string)
    requires '\n' !in cut && ReadValue(Doubled(cut, '\\')).Some?
    ensures forall word <- ReadValue(Doubled(cut, '\\')).value :: '\n' !in word
  {
    hide Doubled, ReadWords, Unescaped, Percents;
    UnescapeUndoesDoubling(cut);
    ReadWordsLineBreaks(cut);
    PercentsLineBreaks(ReadWords(cut).value);
  }

  lemma ControlsShow(words: seq<string>)
    ensures HasControl(Doubled(Joined(words), '\\')) <==> exists word <- words :: HasControl(word)
  {
    hide Doubled, Joined;
    forall c | IsControl(c) ensures c in Doubled(Joined(words), '\\') <==> exists word <- words :: c in word {
      DoubledHas(Joined(words), '\\', c);
      JoinedHas(words, c);
    }
  }

  // A desktop starts exactly the program with exactly the arguments, if and only if there is no control
  // character in any of them and no equals sign in the program. (A line break ends the `Exec` line early,
  // and the others the standard forbids.)
  lemma DesktopRoundTrip(launch: Launch)
    ensures ReadEntry(EntryText(launch)) == Some(Words(launch)) <==>
            (forall word <- Words(launch) :: !HasControl(word)) && '=' !in launch.exe
  {
    hide EntryText, Joined, Doubled, ReadValue, HasControl, KeyValue, StartsApplication;
    var words := Words(launch);
    var line := Joined(words);
    var cut := line[..LineEnd(line)];
    ExecValueOf(launch);
    JoinedHas(words, '\n');
    LineBreakIsControl(words);
    if '\n' in line {
      if ReadValue(Doubled(cut, '\\')).Some? {
        ValueHasNoLineBreak(cut);
      }
    } else {
      assert cut == line;
      EntryStartsApplication(launch);
      ControlsShow(words);
      ValueReadsBack(words);
    }
  }

  lemma LineBreakIsControl(words: seq<string>)
    ensures (exists word <- words :: '\n' in word) ==> exists word <- words :: HasControl(word)
  {
    assert forall word <- words :: '\n' in word ==> IsControl('\n') && HasControl(word);
  }
}
