/** Path quoting on the afpcmd command line, cmdline/cmdline_afp.c: the splitter of command arguments, and the pair that
    escapes and unescapes spaces in completions. */
module Quoting {
  import opened Bytes

  /** AFPC_MAX_UTF8_PATH_STORAGE, terminator included. */
  const PATH_STORAGE := 65536

  // ---- spaces

  function Escaped(s: string): string {
    if s == "" then "" else (if s[0] == ' ' then ['\\', ' '] else [s[0]]) + Escaped(s[1..])
  }

  function Spaces(s: string): nat {
    if s == "" then 0 else (if s[0] == ' ' then 1 else 0) + Spaces(s[1..])
  }

  function Unescaped(s: string): string {
    if s == "" then ""
    else if s[0] == '\\' && |s| > 1 && s[1] == ' ' then [' '] + Unescaped(s[2..])
    else [s[0]] + Unescaped(s[1..])
  }

  /** escape_spaces. */
  method EscapeSpaces(s: string) returns (r: Option<string>)
    ensures r == if |s| < PATH_STORAGE then Some(Escaped(s)) else None
  {
    hide Escaped, Spaces;
    if |s| >= PATH_STORAGE {
      return None;
    }
    var spaces := 0;
    SpacesStep(s, |s|);
    EscapedStep(s, 0);
    for i := 0 to |s|
      invariant spaces + Spaces(s[i..]) == Spaces(s)
    {
      SpacesStep(s, i);
      if s[i] == ' ' {
        spaces := spaces + 1;
      }
    }
    EscapedLength(s);
    if spaces == 0 {
      EscapedPlain(s);
      return Some(s);
    }
    var out, end := "", |s| + spaces;
    var i := 0;
    while i < |s|
      invariant 0 <= i <= |s| && out + Escaped(s[i..]) == Escaped(s)
    {
      EscapedStep(s, i);
      if s[i] == ' ' {
        if |out| >= end {
          break;
        }
        out := out + ['\\'];
      }
      if |out| >= end {
        break;
      }
      out, i := out + [s[i]], i + 1;
    }
    EscapedStep(s, |s|);
    assert out + [] == out;
    return Some(out);
  }

  lemma SpacesStep(s: string, i: nat)
    requires i <= |s|
    ensures Spaces(s[i..]) == if i == |s| then 0 else (if s[i] == ' ' then 1 else 0) + Spaces(s[i + 1..])
  {
    assert i < |s| ==> s[i..][1..] == s[i + 1..];
  }

  /** The buffer is sized for exactly the escaped text. */
  lemma {:induction false} EscapedLength(s: string)
    ensures |Escaped(s)| == |s| + Spaces(s)
  {
    if s != "" {
      EscapedLength(s[1..]);
    }
  }

  lemma EscapedStep(s: string, i: nat)
    requires i <= |s|
    ensures Escaped(s[i..]) ==
      if i == |s| then "" else (if s[i] == ' ' then ['\\', ' '] else [s[i]]) + Escaped(s[i + 1..])
    ensures s[0..] == s
  {
    assert i < |s| ==> s[i..][1..] == s[i + 1..];
  }

  lemma {:induction false} EscapedPlain(s: string)
    requires Spaces(s) == 0
    ensures Escaped(s) == s
  {
    if s != "" {
      EscapedPlain(s[1..]);
    }
  }

  /** Only a space gets a backslash, and every space does. */
  lemma {:induction false} EscapesSpaces(s: string)
    ensures ' ' !in s ==> Escaped(s) == s
    ensures forall i :: 0 <= i < |Escaped(s)| && Escaped(s)[i] == ' ' ==> i > 0 && Escaped(s)[i - 1] == '\\'
  {
    if s != "" {
      EscapesSpaces(s[1..]);
      var rest := Escaped(s[1..]);
      assert ' ' !in s ==> ' ' !in s[1..] && s == [s[0]] + s[1..];
      forall i | 0 <= i < |Escaped(s)| && Escaped(s)[i] == ' ' ensures i > 0 && Escaped(s)[i - 1] == '\\' {
        var k := if s[0] == ' ' then 2 else 1;
        if i >= k {
          assert rest[i - k] == ' ' && Escaped(s)[i - 1] == rest[i - k - 1];
        }
      }
    }
  }

  /** Without a backslash there is nothing to take away. */
  lemma {:induction false} UnescapesBackslashes(s: string)
    ensures '\\' !in s ==> Unescaped(s) == s
  {
    if s != "" && '\\' !in s {
      UnescapesBackslashes(s[1..]);
      assert s == [s[0]] + s[1..];
    }
  }

  predicate EscapeAt(s: string, k: nat) {
    k + 1 < |s| && s[k] == '\\' && s[k + 1] == ' '
  }

  /** unescape_spaces. */
  method UnescapeSpaces(s: string) returns (r: Option<string>)
    ensures r == if |s| < PATH_STORAGE then Some(Unescaped(s)) else None
  {
    hide Unescaped, EscapeAt;
    if |s| >= PATH_STORAGE {
      return None;
    }
    var found := false;
    for i := 0 to |s|
      invariant found <==> exists k :: 0 <= k < i && EscapeAt(s, k)
    {
      found := found || EscapeAt(s, i);
    }
    if !found {
      UnescapedPlain(s);
      return Some(s);
    }
    var out, i := "", 0;
    UnescapedStep(s, 0);
    while i < |s|
      invariant 0 <= i <= |s| && out + Unescaped(s[i..]) == Unescaped(s)
    {
      UnescapedStep(s, i);
      if EscapeAt(s, i) {
        out, i := out + [' '], i + 2;
      } else {
        out, i := out + [s[i]], i + 1;
      }
    }
    UnescapedStep(s, |s|);
    assert out + [] == out;
    return Some(out);
  }

  lemma UnescapedStep(s: string, i: nat)
    requires i <= |s|
    ensures Unescaped(s[i..]) ==
      if i == |s| then ""
      else if EscapeAt(s, i) then [' '] + Unescaped(s[i + 2..])
      else [s[i]] + Unescaped(s[i + 1..])
    ensures s[0..] == s && (EscapeAt(s, i) ==> i + 2 <= |s|)
  {
    assert i < |s| ==> s[i..][1..] == s[i + 1..];
    assert i + 1 < |s| ==> s[i..][2..] == s[i + 2..];
  }

  lemma {:induction false} UnescapedPlain(s: string)
    requires forall k :: 0 <= k < |s| ==> !EscapeAt(s, k)
    ensures Unescaped(s) == s
  {
    if s != "" {
      assert !EscapeAt(s, 0);
      forall k | 0 <= k < |s[1..]| ensures !EscapeAt(s[1..], k) {
        assert !EscapeAt(s, k + 1);
      }
      UnescapedPlain(s[1..]);
    }
  }

  /** Unescaping undoes escaping, whatever backslashes the text has. */
  lemma {:induction false} UnescapedEscaped(s: string)
    ensures Unescaped(Escaped(s)) == s && |Escaped(s)| >= |s|
  {
    if s != "" {
      UnescapedEscaped(s[1..]);
      if s[0] == ' ' {
        assert Escaped(s)[2..] == Escaped(s[1..]);
      } else {
        assert s[1..] != "" ==> Escaped(s[1..])[0] != ' ';
        assert Escaped(s)[1..] == Escaped(s[1..]);
      }
    }
  }

  /** A completion comes back exactly when its escaped form fits. */
  method EscapeThenUnescape(s: string) returns (r: Option<string>)
    ensures r == if |Escaped(s)| < PATH_STORAGE then Some(s) else None
  {
    UnescapedEscaped(s);
    var escaped := EscapeSpaces(s);
    match escaped
    case None => return None;
    case Some(text) => r := UnescapeSpaces(text);
  }

  // ---- arguments

  /** One argument: its characters, what follows the space that ends it, and whether a quote is left open. */
  datatype Word = Word(text: string, rest: Option<string>, open: bool)

  function Read(s: string, inquote: bool, inescape: bool): Word {
    if s == "" then Word("", None, inquote)
    else if s[0] == '"' && !inescape then Read(s[1..], !inquote, false)
    else if s[0] == ' ' && !inescape && !inquote then Word("", Some(s[1..]), false)
    else if s[0] == '\\' && !inescape then Read(s[1..], inquote, true)
    else
      var w := Read(s[1..], inquote, false);
      w.(text := [s[0]] + w.text)
  }

  /** escape_paths_alloc, for one argument or for two. */
  method EscapePaths(incoming: string, two: bool) returns (r: Option<(string, string)>)
    ensures incoming == "" ==> r == None
    ensures incoming != "" && !two ==>
      var w := Read(incoming, false, false);
      r == if w.open then None else Some((w.text, ""))
    ensures incoming != "" && two ==>
      var w := Read(incoming, false, false);
      r == if w.rest.None? then None else
             var x := Read(w.rest.value, false, false);
             if x.open then None else Some((w.text, x.text))
  {
    hide Read, Prepended;
    if incoming == "" {
      return None;
    }
    var first, second := "", "";
    var inquote, inescape, donewith1 := false, false, false;
    ghost var w1 := Read(incoming, false, false);
    ghost var w2 := if w1.rest.Some? then Read(w1.rest.value, false, false) else w1;
    ReadStep(incoming, 0, false, false);
    PrependNothing(w1);
    PrependNothing(w2);
    var i := 0;
    while i < |incoming|
      invariant 0 <= i <= |incoming| && (donewith1 ==> two)
      invariant !donewith1 ==> second == "" && Prepended(first, Read(incoming[i..], inquote, inescape)) == w1
      invariant donewith1 ==>
        w1.rest.Some? && first == w1.text && Prepended(second, Read(incoming[i..], inquote, inescape)) == w2
    {
      var ch := incoming[i];
      ReadStep(incoming, i, inquote, inescape);
      PrependMore(first, ch, Read(incoming[i + 1..], inquote, false));
      PrependMore(second, ch, Read(incoming[i + 1..], inquote, false));
      PrependEnd(first, Some(incoming[i + 1..]), false);
      PrependEnd(second, Some(incoming[i + 1..]), false);
      if ch == '"' && !inescape {
        inquote := !inquote;
        i := i + 1;
        continue;
      } else if ch == ' ' && !inescape && !inquote {
        if donewith1 || !two {
          break;
        }
        donewith1 := true;
        i := i + 1;
        continue;
      } else if ch == '\\' && !inescape {
        inescape := true;
        i := i + 1;
        continue;
      }
      inescape := false;
      if donewith1 {
        second := second + [ch];
      } else {
        first := first + [ch];
      }
      i := i + 1;
    }
    ReadStep(incoming, |incoming|, inquote, inescape);
    PrependEnd(first, None, inquote);
    PrependEnd(second, None, inquote);
    if inquote || (two && !donewith1) {
      return None;
    }
    return Some((first, second));
  }

  ghost function Prepended(text: string, w: Word): Word {
    w.(text := text + w.text)
  }

  lemma PrependNothing(w: Word)
    ensures Prepended("", w) == w
  {
  }

  lemma PrependMore(text: string, c: char, w: Word)
    ensures Prepended(text, Prepended([c], w)) == Prepended(text + [c], w)
  {
    assert text + ([c] + w.text) == text + [c] + w.text;
  }

  lemma PrependEnd(text: string, rest: Option<string>, open: bool)
    ensures Prepended(text, Word("", rest, open)) == Word(text, rest, open)
  {
    assert text + "" == text;
  }

  /** Read, one character at a time. */
  lemma ReadStep(s: string, i: nat, inquote: bool, inescape: bool)
    requires i <= |s|
    ensures s[0..] == s
    ensures Read(s[i..], inquote, inescape) ==
      if i == |s| then Word("", None, inquote)
      else if s[i] == '"' && !inescape then Read(s[i + 1..], !inquote, false)
      else if s[i] == ' ' && !inescape && !inquote then Word("", Some(s[i + 1..]), false)
      else if s[i] == '\\' && !inescape then Read(s[i + 1..], inquote, true)
      else Prepended([s[i]], Read(s[i + 1..], inquote, false))
  {
    assert i < |s| ==> s[i..][1..] == s[i + 1..];
  }

  predicate Clean(s: string) {
    '"' !in s && '\\' !in s
  }

  lemma ReadPlain(c: char, rest: string, inquote: bool)
    requires c != '"' && c != '\\' && c != ' '
    ensures Read([c] + rest, inquote, false) == Prepended([c], Read(rest, inquote, false))
  {
    assert ([c] + rest)[1..] == rest;
  }

  lemma ReadSpace(rest: string, inquote: bool)
    ensures Read(['\\', ' '] + rest, inquote, false) == Prepended([' '], Read(rest, inquote, false))
  {
    assert (['\\', ' '] + rest)[1..] == [' '] + rest && ([' '] + rest)[1..] == rest;
  }

  lemma {:induction false} ReadClean(a: string, tail: string)
    requires Clean(a) && (tail == "" || tail[0] == ' ')
    ensures Read(Escaped(a) + tail, false, false) == Word(a, if tail == "" then None else Some(tail[1..]), false)
  {
    hide Read, Escaped, Prepended;
    EscapedStep(a, 0);
    if a == "" {
      assert Escaped(a) + tail == tail;
      ReadStep(tail, 0, false, false);
    } else {
      ReadClean(a[1..], tail);
      EscapedHead(a, tail);
      var rest := Escaped(a[1..]) + tail;
      if a[0] == ' ' {
        ReadSpace(rest, false);
      } else {
        ReadPlain(a[0], rest, false);
      }
      PrependWord(a[0], a[1..], Read(rest, false, false));
      assert a == [a[0]] + a[1..];
    }
  }

  lemma EscapedHead(a: string, tail: string)
    requires a != ""
    ensures Escaped(a) + tail == (if a[0] == ' ' then ['\\', ' '] else [a[0]]) + (Escaped(a[1..]) + tail)
  {
  }

  lemma PrependWord(c: char, text: string, w: Word)
    requires w.text == text
    ensures Prepended([c], w) == Word([c] + text, w.rest, w.open)
  {
  }

  lemma {:induction false} ReadQuoted(a: string, tail: string)
    requires Clean(a) && (tail == "" || tail[0] == ' ')
    ensures Read(a + ['"'] + tail, true, false) == Word(a, if tail == "" then None else Some(tail[1..]), false)
  {
    hide Prepended;
    if a == "" {
      assert a + ['"'] + tail == ['"'] + tail && (['"'] + tail)[1..] == tail;
    } else {
      ReadQuoted(a[1..], tail);
      var s := a + ['"'] + tail;
      assert s[1..] == a[1..] + ['"'] + tail;
      assert a == [a[0]] + a[1..];
    }
  }

  /** One escaped argument comes back when it has no quote or backslash. */
  method EscapeThenSplitOne(a: string) returns (r: Option<(string, string)>)
    requires Clean(a) && a != ""
    ensures r == Some((a, ""))
  {
    hide Read, Escaped;
    ReadClean(a, "");
    EscapedStep(a, 0);
    assert Escaped(a) + "" == Escaped(a);
    r := EscapePaths(Escaped(a), false);
  }

  lemma {:induction false} ReadOpen(a: string)
    requires Clean(a)
    ensures Read(a, true, false).open
  {
    if a != "" {
      ReadOpen(a[1..]);
    }
  }

  /** A quote that is left open is refused, and so is a line without a second argument where two are asked for. */
  method Incomplete(a: string) returns (quoted: Option<(string, string)>, alone: Option<(string, string)>)
    requires Clean(a)
    ensures quoted == None && alone == None
  {
    hide Read, Escaped;
    var line := ['"'] + a;
    assert line[1..] == a;
    ReadStep(line, 0, false, false);
    ReadOpen(a);
    quoted := EscapePaths(line, false);
    ReadClean(a, "");
    assert Escaped(a) + "" == Escaped(a);
    alone := EscapePaths(Escaped(a), true);
  }

  /** Two arguments in quotes come back too, spaces and all, when they have no quote or backslash. */
  method QuoteThenSplit(a: string, b: string) returns (r: Option<(string, string)>)
    requires Clean(a) && Clean(b)
    ensures r == Some((a, b))
  {
    hide Read;
    var second := ['"'] + b + ['"'];
    var line := ['"'] + a + ['"'] + [' '] + second;
    assert line[1..] == a + ['"'] + ([' '] + second) && second[1..] == b + ['"'] + "";
    assert ([' '] + second)[1..] == second;
    ReadStep(line, 0, false, false);
    ReadStep(second, 0, false, false);
    ReadQuoted(a, [' '] + second);
    ReadQuoted(b, "");
    r := EscapePaths(line, true);
  }

  // ---- exactly which pairs of arguments come back

  /** The characters of both arguments, one after the other. */
  function Both(s: string, inquote: bool, inescape: bool, second: bool): string {
    if s == "" then ""
    else if s[0] == '"' && !inescape then Both(s[1..], !inquote, false, second)
    else if s[0] == ' ' && !inescape && !inquote then (if second then "" else Both(s[1..], false, false, true))
    else if s[0] == '\\' && !inescape then Both(s[1..], inquote, true, second)
    else [s[0]] + Both(s[1..], inquote, false, second)
  }

  lemma {:induction false} BothReads(s: string, inquote: bool, inescape: bool)
    ensures Both(s, inquote, inescape, true) == Read(s, inquote, inescape).text
    ensures var w := Read(s, inquote, inescape);
      Both(s, inquote, inescape, false)
      == w.text + if w.rest.Some? then Read(w.rest.value, false, false).text else ""
  {
    if s == "" {
    } else if s[0] == '"' && !inescape {
      BothReads(s[1..], !inquote, false);
    } else if s[0] == ' ' && !inescape && !inquote {
      BothReads(s[1..], false, false);
    } else if s[0] == '\\' && !inescape {
      BothReads(s[1..], inquote, true);
    } else {
      BothReads(s[1..], inquote, false);
    }
  }

  /** How many quotes and backslashes a text has. */
  function Specials(s: string): nat {
    if s == "" then 0 else (if s[0] == '"' || s[0] == '\\' then 1 else 0) + Specials(s[1..])
  }

  lemma {:induction false} CountsConcat(s: string, t: string)
    ensures Specials(s + t) == Specials(s) + Specials(t) && Spaces(s + t) == Spaces(s) + Spaces(t)
  {
    if s == "" {
      assert s + t == t;
    } else {
      CountsConcat(s[1..], t);
      assert (s + t)[1..] == s[1..] + t;
    }
  }

  lemma {:induction false} CleanCounts(s: string)
    ensures Specials(s) == 0 <==> Clean(s)
  {
    if s != "" {
      CleanCounts(s[1..]);
      assert s == [s[0]] + s[1..];
    }
  }

  lemma CountHead(c: char, t: string)
    ensures Specials([c] + t) == (if c == '"' || c == '\\' then 1 else 0) + Specials(t)
    ensures Spaces([c] + t) == (if c == ' ' then 1 else 0) + Spaces(t)
  {
    assert ([c] + t)[1..] == t;
  }

  lemma BothHead(c: char, rest: string, inquote: bool, inescape: bool, second: bool)
    ensures Both([c] + rest, inquote, inescape, second) ==
      if c == '"' && !inescape then Both(rest, !inquote, false, second)
      else if c == ' ' && !inescape && !inquote then (if second then "" else Both(rest, false, false, true))
      else if c == '\\' && !inescape then Both(rest, inquote, true, second)
      else [c] + Both(rest, inquote, false, second)
  {
    assert ([c] + rest)[1..] == rest;
  }

  /** A command line: an escaped argument, and perhaps a space and another. */
  function Line(a: string, more: Option<string>): string {
    Escaped(a) + if more.Some? then [' '] + Escaped(more.value) else ""
  }

  function LineSpecials(a: string, more: Option<string>): nat {
    Specials(a) + if more.Some? then Specials(more.value) else 0
  }

  function LineSpaces(a: string, more: Option<string>): nat {
    Spaces(a) + if more.Some? then Spaces(more.value) else 0
  }

  lemma LineHead(a: string, more: Option<string>)
    ensures a != "" && a[0] != ' ' ==> Line(a, more) == [a[0]] + Line(a[1..], more)
    ensures a != "" && a[0] == ' ' ==> Line(a, more) == ['\\'] + ([' '] + Line(a[1..], more))
    ensures a != "" ==> LineSpecials(a, more) == (if a[0] == '"' || a[0] == '\\' then 1 else 0) + LineSpecials(a[1..], more)
    ensures a != "" ==> LineSpaces(a, more) == (if a[0] == ' ' then 1 else 0) + LineSpaces(a[1..], more)
    ensures a == "" && more.Some? ==> Line(a, more) == [' '] + Line(more.value, None)
    ensures a == "" && more.Some? ==> LineSpecials(a, more) == LineSpecials(more.value, None)
    ensures a == "" && more.Some? ==> LineSpaces(a, more) == LineSpaces(more.value, None)
    ensures a == "" && more.None? ==> Line(a, more) == "" && LineSpecials(a, more) == LineSpaces(a, more) == 0
  {
    if a != "" {
      assert a[0] == ' ' ==> ['\\', ' '] + Escaped(a[1..]) == ['\\'] + ([' '] + Escaped(a[1..]));
    }
  }

  /** Reading a line never yields more quotes and backslashes than its arguments have. It yields as many of them, and
      all the spaces, only when the arguments have none of them. */
  lemma {:induction false} ReadingLoses(a: string, more: Option<string>, inquote: bool, inescape: bool, second: bool)
    ensures var x := Both(Line(a, more), inquote, inescape, second);
      var most := LineSpecials(a, more) + if inescape then 1 else 0;
      && Specials(x) <= most
      && (!inquote && Specials(x) == most ==>
            && Spaces(x) <= LineSpaces(a, more)
            && (Spaces(x) == LineSpaces(a, more) ==> most == 0))
    decreases |a| + if more.Some? then |more.value| + 1 else 0, 1
  {
    hide Both, Line, LineSpecials, LineSpaces, Specials, Spaces;
    LineHead(a, more);
    if a == "" && more.None? {
      NothingRead(inquote, inescape, second);
    } else if a == "" {
      ReadingLoses(more.value, None, inquote, false, second);
      ReadingLoses(more.value, None, false, false, true);
      var rest := Line(more.value, None);
      BothHead(' ', rest, inquote, inescape, second);
      CountHead(' ', Both(rest, inquote, false, second));
      NothingRead(inquote, inescape, second);
    } else if a[0] == ' ' {
      ReadingLosesSpace(a, more, inquote, inescape, second);
    } else {
      var rest := Line(a[1..], more);
      BothHead(a[0], rest, inquote, inescape, second);
      ReadingLoses(a[1..], more, inquote, false, second);
      ReadingLoses(a[1..], more, !inquote, false, second);
      ReadingLoses(a[1..], more, inquote, true, second);
      CountHead(a[0], Both(rest, inquote, false, second));
    }
  }

  lemma NothingRead(inquote: bool, inescape: bool, second: bool)
    ensures Both("", inquote, inescape, second) == "" && Specials("") == Spaces("") == 0
  {
  }

  lemma {:induction false} ReadingLosesSpace(a: string, more: Option<string>, inquote: bool, inescape: bool, second: bool)
    requires a != "" && a[0] == ' '
    ensures var x := Both(Line(a, more), inquote, inescape, second);
      var most := LineSpecials(a, more) + if inescape then 1 else 0;
      && Specials(x) <= most
      && (!inquote && Specials(x) == most ==>
            && Spaces(x) <= LineSpaces(a, more)
            && (Spaces(x) == LineSpaces(a, more) ==> most == 0))
    decreases |a| + if more.Some? then |more.value| + 1 else 0, 0
  {
    hide Both, Line, LineSpecials, LineSpaces, Specials, Spaces;
    LineHead(a, more);
    var rest := Line(a[1..], more);
    BothHead('\\', [' '] + rest, inquote, inescape, second);
    BothHead(' ', rest, inquote, true, second);
    BothHead(' ', rest, inquote, false, second);
    ReadingLoses(a[1..], more, inquote, false, second);
    ReadingLoses(a[1..], more, false, false, true);
    CountHead(' ', Both(rest, inquote, false, second));
    CountHead('\\', Both([' '] + rest, inquote, false, second));
    NothingRead(inquote, inescape, second);
  }

  /** Splitting two escaped arguments gives them back exactly when neither has a quote or a backslash. */
  method EscapeThenSplit(a: string, b: string) returns (r: Option<(string, string)>)
    ensures r == Some((a, b)) <==> Clean(a) && Clean(b)
  {
    hide Both, Read, Line, LineSpecials, LineSpaces, Specials, Spaces, Clean, Escaped;
    var line := Escaped(a) + ([' '] + Escaped(b));
    if Clean(a) && Clean(b) {
      ReadClean(a, [' '] + Escaped(b));
      ReadClean(b, "");
      assert ([' '] + Escaped(b))[1..] == Escaped(b) == Escaped(b) + "";
    }
    LineIs(a, b);
    ReadingLoses(a, Some(b), false, false, false);
    BothReads(line, false, false);
    CountsConcat(a, b);
    CleanCounts(a);
    CleanCounts(b);
    r := EscapePaths(line, true);
  }

  lemma LineIs(a: string, b: string)
    ensures Line(a, Some(b)) == Escaped(a) + ([' '] + Escaped(b))
    ensures LineSpecials(a, Some(b)) == Specials(a) + Specials(b) && LineSpaces(a, Some(b)) == Spaces(a) + Spaces(b)
  {
  }
}
