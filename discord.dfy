/**
 * callisto-util-misc, discord: parsing of chat commands addressed to the bot,
 * usage text for command formats, and locating a Discord channel in the task
 * configuration.
 *
 * The three regular expressions of the module (`<@[0-9]+>`, `\S+` and the
 * API channel path) are written out as functions on strings.
 */
module Discord {
  import opened Wrappers
  import opened Strings
  import opened Json

  /** The length of the run of ASCII digits `s` starts with. */
  function DigitRun(s: string): (n: nat)
    ensures n <= |s| && (forall k :: 0 <= k < n ==> IsDigit(s[k])) && (n == |s| || !IsDigit(s[n]))
  {
    if s != [] && IsDigit(s[0]) then 1 + DigitRun(s[1..]) else 0
  }

  /** The digit run of a string of digits followed by a non-digit is that string. */
  lemma {:induction false} DigitRunOf(d: string, t: string)
    requires forall k :: 0 <= k < |d| ==> IsDigit(d[k])
    requires t == [] || !IsDigit(t[0])
    ensures DigitRun(d + t) == |d|
  {
    if d != [] {
      assert (d + t)[1..] == d[1..] + t;
      DigitRunOf(d[1..], t);
    }
  }

  // ---------------------------------------------------------------- mentions

  /** A mention in numerical form: `<@`, one or more digits, `>`. */
  predicate IsMention(m: string)
  {
    && 4 <= |m| && m[0] == '<' && m[1] == '@' && m[|m| - 1] == '>'
    && forall k :: 2 <= k < |m| - 1 ==> IsDigit(m[k])
  }

  /** The length of the mention `s` starts with, if it starts with one. */
  function MentionLength(s: string): (r: Option<nat>)
    ensures r.Some? ==> r.value <= |s| && IsMention(s[..r.value])
  {
    if 2 <= |s| && s[0] == '<' && s[1] == '@' then
      var d := DigitRun(s[2..]);
      if 1 <= d && 2 + d < |s| && s[2 + d] == '>' then Some(3 + d) else None
    else None
  }

  /** A mention is recognised as exactly itself, whatever follows it. */
  lemma MentionLengthOf(m: string, rest: string)
    requires IsMention(m)
    ensures MentionLength(m + rest) == Some(|m|)
  {
    var s := m + rest;
    assert s[2..] == m[2..|m| - 1] + ([m[|m| - 1]] + rest);
    DigitRunOf(m[2..|m| - 1], [m[|m| - 1]] + rest);
  }

  /** `message.replace(/<@[0-9]+>/g, '')`: one left-to-right pass removing every mention it meets. */
  function StripMentions(s: string): (r: string)
    ensures |r| <= |s|
    decreases |s|
  {
    if s == [] then []
    else match MentionLength(s)
      case Some(n) => StripMentions(s[n..])
      case None => [s[0]] + StripMentions(s[1..])
  }

  /** A mention at the front is removed. */
  lemma StripMentionsDropsMention(m: string, rest: string)
    requires IsMention(m)
    ensures StripMentions(m + rest) == StripMentions(rest)
  {
    MentionLengthOf(m, rest);
    assert (m + rest)[|m|..] == rest;
  }

  /** Text without `<` is kept as it is. */
  lemma {:induction false} StripMentionsKeepsPlain(a: string, rest: string)
    requires forall k :: 0 <= k < |a| ==> a[k] != '<'
    ensures StripMentions(a + rest) == a + StripMentions(rest)
  {
    if a != [] {
      var s := a + rest;
      assert s[0] == a[0];
      assert MentionLength(s).None?;
      assert s[1..] == a[1..] + rest;
      assert StripMentions(s) == [s[0]] + StripMentions(s[1..]);
      StripMentionsKeepsPlain(a[1..], rest);
    } else {
      assert a + rest == rest;
    }
  }

  // ------------------------------------------------------------------- words

  /** A match of `\S+`: non-empty, no white space. */
  predicate IsWord(w: string)
  {
    w != [] && forall k :: 0 <= k < |w| ==> !IsWhitespace(w[k])
  }

  /** The length of the run of non-white-space characters `s` starts with. */
  function WordLength(s: string): (n: nat)
    ensures n <= |s| && (forall k :: 0 <= k < n ==> !IsWhitespace(s[k])) && (n == |s| || IsWhitespace(s[n]))
  {
    if s != [] && !IsWhitespace(s[0]) then 1 + WordLength(s[1..]) else 0
  }

  /** `s.match(/\S+/g)`, with `[]` for the `null` of no match. */
  function Words(s: string): (ws: seq<string>)
    ensures forall k :: 0 <= k < |ws| ==> IsWord(ws[k])
    decreases |s|
  {
    if s == [] then []
    else if IsWhitespace(s[0]) then Words(s[1..])
    else
      var n := WordLength(s);
      [s[..n]] + Words(s[n..])
  }

  /** A run of non-white-space followed by white space or the end is one word long. */
  lemma {:induction false} WordLengthOf(w: string, t: string)
    requires forall k :: 0 <= k < |w| ==> !IsWhitespace(w[k])
    requires t == [] || IsWhitespace(t[0])
    ensures WordLength(w + t) == |w|
  {
    if w == [] {
      assert w + t == t;
    } else {
      assert (w + t)[0] == w[0];
      assert (w + t)[1..] == w[1..] + t;
      WordLengthOf(w[1..], t);
    }
  }

  /** Leading white space separates no word. */
  lemma {:induction false} WordsSkipLeading(ws: string, s: string)
    requires AllWhitespace(ws)
    ensures Words(ws + s) == Words(s)
  {
    if ws != [] {
      assert (ws + s)[0] == ws[0];
      assert (ws + s)[1..] == ws[1..] + s;
      WordsSkipLeading(ws[1..], s);
    } else {
      assert ws + s == s;
    }
  }

  /** Trailing white space separates no word. */
  lemma {:induction false} WordsSkipTrailing(s: string, ws: string)
    requires AllWhitespace(ws)
    ensures Words(s + ws) == Words(s)
    decreases |s|
  {
    if s == [] {
      assert s + ws == ws;
      WordsSkipLeading(ws, []);
      assert ws + [] == ws;
    } else if IsWhitespace(s[0]) {
      assert (s + ws)[1..] == s[1..] + ws;
      WordsSkipTrailing(s[1..], ws);
    } else {
      var n := WordLength(s);
      if n < |s| {
        WordLengthOf(s[..n], s[n..] + ws);
        assert s + ws == s[..n] + (s[n..] + ws);
      } else {
        WordLengthOf(s, ws);
        assert s[n..] == [];
      }
      assert (s + ws)[..n] == s[..n];
      assert (s + ws)[n..] == s[n..] + ws;
      WordsSkipTrailing(s[n..], ws);
    }
  }

  /** Trimming before splitting into words does not change the words. */
  lemma WordsOfTrim(s: string)
    ensures Words(Trim(s)) == Words(s)
  {
    var t := TrimStart(s);
    assert s == s[..|s| - |t|] + t;
    WordsSkipLeading(s[..|s| - |t|], t);
    var u := TrimEnd(t);
    assert t == u + t[|u|..];
    WordsSkipTrailing(u, t[|u|..]);
  }

  /** Splitting words joined by single spaces gives the words back. */
  lemma {:induction false} WordsOfJoin(ws: seq<string>)
    requires forall k :: 0 <= k < |ws| ==> IsWord(ws[k])
    ensures Words(Join(ws, " ")) == ws
    decreases |ws|
  {
    if |ws| == 1 {
      WordLengthOf(ws[0], []);
      assert ws[0] + [] == ws[0];
      assert ws[0][|ws[0]|..] == [];
    } else if |ws| > 1 {
      var rest := Join(ws[1..], " ");
      WordLengthOf(ws[0], " " + rest);
      var s := ws[0] + " " + rest;
      assert s == ws[0] + (" " + rest);
      assert s[..|ws[0]|] == ws[0];
      assert s[|ws[0]|..] == " " + rest;
      assert (" " + rest)[1..] == rest;
      WordsOfJoin(ws[1..]);
      assert ws == [ws[0]] + ws[1..];
    }
  }

  /** The words `parseCommand` works on: mentions removed, trimmed, split at white space. */
  function CommandWords(message: string): seq<string>
  {
    Words(Trim(StripMentions(message)))
  }

  /** Trimming is redundant: the command words are the words of the text without mentions. */
  lemma CommandWordsIgnoreTrim(message: string)
    ensures CommandWords(message) == Words(StripMentions(message))
  {
    WordsOfTrim(StripMentions(message));
  }

  /** A message that is words separated by single spaces, without `<`, has those words as its command words. */
  lemma CommandWordsOfJoin(ws: seq<string>)
    requires forall k :: 0 <= k < |ws| ==> IsWord(ws[k]) && '<' !in ws[k]
    ensures CommandWords(Join(ws, " ")) == ws
  {
    var s := Join(ws, " ");
    JoinFree(ws, " ", '<');
    StripMentionsKeepsPlain(s, []);
    assert s + [] == s;
    CommandWordsIgnoreTrim(s);
    WordsOfJoin(ws);
  }

  /** Joining pieces and a separator that lack a character gives a text that lacks it. */
  lemma {:induction false} JoinFree(ps: seq<string>, sep: string, c: char)
    requires c !in sep && forall k :: 0 <= k < |ps| ==> c !in ps[k]
    ensures forall k :: 0 <= k < |Join(ps, sep)| ==> Join(ps, sep)[k] != c
    decreases |ps|
  {
    if |ps| > 1 {
      JoinFree(ps[1..], sep, c);
      var j := Join(ps[1..], sep);
      forall k | 0 <= k < |ps[0] + sep + j| ensures (ps[0] + sep + j)[k] != c {
        if k < |ps[0]| {
          assert (ps[0] + sep + j)[k] == ps[0][k];
        } else if k < |ps[0]| + |sep| {
          assert (ps[0] + sep + j)[k] == sep[k - |ps[0]|];
        } else {
          assert (ps[0] + sep + j)[k] == j[k - |ps[0]| - |sep|];
        }
      }
    } else if |ps| == 1 {
      assert forall k :: 0 <= k < |ps[0]| ==> ps[0][k] in ps[0];
    }
  }

  /** A leading mention and its space are ignored. */
  lemma CommandWordsSkipMention(m: string, rest: string)
    requires IsMention(m)
    ensures CommandWords(m + " " + rest) == CommandWords(rest)
  {
    assert m + " " + rest == m + (" " + rest);
    StripMentionsDropsMention(m, " " + rest);
    StripMentionsKeepsPlain(" ", rest);
    CommandWordsIgnoreTrim(m + " " + rest);
    CommandWordsIgnoreTrim(rest);
    WordsSkipLeading(" ", StripMentions(rest));
  }

  // ----------------------------------------------------------------- formats

  /**
   * A command format: `[name, required, optional, description]`. A format
   * written without its lists (`['list']`) has `None` there, which makes
   * the source throw wherever it reads the list.
   */
  datatype Format = Format(name: string, required: Option<seq<string>>, optional: Option<seq<string>>, description: Option<string>)

  /** `name.match(new RegExp(command))`: `new RegExp(undefined)` matches every name; otherwise a substring test. */
  predicate NameMatches(command: Option<string>, name: string)
  {
    command.None? || Contains(name, command.value)
  }

  /** The format at `i` matches and none before it does. */
  predicate FirstMatchAt(command: Option<string>, formats: seq<Format>, i: int)
  {
    && 0 <= i < |formats| && NameMatches(command, formats[i].name)
    && forall j :: 0 <= j < i ==> !NameMatches(command, formats[j].name)
  }

  /** `getMatchingFormat`: the first format whose name matches the command word. */
  function MatchingFormat(command: Option<string>, formats: seq<Format>): (r: Option<Format>)
    ensures r.None? <==> forall i :: 0 <= i < |formats| ==> !NameMatches(command, formats[i].name)
    ensures r.Some? ==> exists i :: FirstMatchAt(command, formats, i) && formats[i] == r.value
  {
    if formats == [] then None
    else if NameMatches(command, formats[0].name) then Some(formats[0])
    else
      var r := MatchingFormat(command, formats[1..]);
      assert forall i :: 1 <= i < |formats| ==> formats[1..][i - 1] == formats[i];
      assert r.Some? ==> exists i :: FirstMatchAt(command, formats[1..], i) && formats[1..][i] == r.value;
      assert forall i :: FirstMatchAt(command, formats[1..], i) ==> FirstMatchAt(command, formats, i + 1);
      r
  }

  /** `command[i]`, `undefined` past the end. */
  function ArgAt(bits: seq<string>, i: nat): Option<string>
  {
    if i < |bits| then Some(bits[i]) else None
  }

  /**
   * `names.reduce(reduceCommandArguments(bits, offset), {})`: the name at
   * position `n` gets a key when `bits.length >= n + offset`, with value
   * `bits[n + offset]`; at equality that value is `undefined`. A later
   * name overwrites an earlier equal one.
   */
  function ReduceArguments(bits: seq<string>, offset: nat, names: seq<string>): map<string, Option<string>>
    decreases |names|
  {
    if names == [] then map[]
    else
      var n := |names| - 1;
      var acc := ReduceArguments(bits, offset, names[..n]);
      if n + offset <= |bits| then acc[names[n] := ArgAt(bits, n + offset)] else acc
  }

  /** A name has a key exactly when one of its positions `n` satisfies `n + offset <= |bits|`. */
  lemma {:induction false} ReduceArgumentsKeys(bits: seq<string>, offset: nat, names: seq<string>, key: string)
    ensures key in ReduceArguments(bits, offset, names) <==>
      exists n :: 0 <= n < |names| && names[n] == key && n + offset <= |bits|
    decreases |names|
  {
    if names != [] {
      var n := |names| - 1;
      ReduceArgumentsKeys(bits, offset, names[..n], key);
      assert forall m :: 0 <= m < n ==> names[..n][m] == names[m];
    }
  }

  /** The last position of a name decides its value: the word at that position plus `offset`. */
  lemma {:induction false} ReduceArgumentsValue(bits: seq<string>, offset: nat, names: seq<string>, n: nat)
    requires n < |names| && n + offset <= |bits|
    requires forall m :: n < m < |names| ==> names[m] != names[n]
    ensures names[n] in ReduceArguments(bits, offset, names)
    ensures ReduceArguments(bits, offset, names)[names[n]] == ArgAt(bits, n + offset)
    decreases |names|
  {
    var last := |names| - 1;
    if n < last {
      ReduceArgumentsValue(bits, offset, names[..last], n);
      assert names[..last][n] == names[n];
    }
  }

  /** The outcome of `parseCommand`. */
  datatype ParseResult =
    | NotACommand                 // false
    | UnknownCommand              // [false]
    | MissingArguments(name: string)   // [false, name]
    | Parsed(name: string, reqArgs: map<string, Option<string>>, optArgs: map<string, Option<string>>, matchingFormat: Format)
    | Threw                       // the matching format lacks a list the parser reads

  /** The second word, or `undefined`. */
  function SecondWord(bits: seq<string>): Option<string>
  {
    if |bits| > 1 then Some(bits[1]) else None
  }

  /** `parseCommand` once the message has been cut into words. */
  function ParseWords(identifier: string, formats: seq<Format>, bits: seq<string>): (r: ParseResult)
    ensures r == NotACommand <==> bits == [] || bits[0] != identifier
    ensures r == UnknownCommand <==>
      bits != [] && bits[0] == identifier && MatchingFormat(SecondWord(bits), formats).None?
    ensures r.MissingArguments? ==>
      var f := MatchingFormat(SecondWord(bits), formats);
      f.Some? && r.name == f.value.name && f.value.required.Some? && |bits| < |f.value.required.value| + 2
    ensures r == Threw <==>
      && bits != [] && bits[0] == identifier
      && var f := MatchingFormat(SecondWord(bits), formats);
      && f.Some?
      && (f.value.required.None? || (|bits| >= |f.value.required.value| + 2 && f.value.optional.None?))
    ensures r.Parsed? ==>
      && Some(r.matchingFormat) == MatchingFormat(SecondWord(bits), formats)
      && r.name == r.matchingFormat.name
      && r.matchingFormat.required.Some? && r.matchingFormat.optional.Some?
      && |bits| >= |r.matchingFormat.required.value| + 2
  {
    if bits == [] || bits[0] != identifier then NotACommand
    else match MatchingFormat(SecondWord(bits), formats)
      case None => UnknownCommand
      case Some(f) =>
        if f.required.None? then Threw
        else if |bits| < |f.required.value| + 2 then MissingArguments(f.name)
        else if f.optional.None? then Threw
        else
          var req := f.required.value;
          Parsed(f.name, ReduceArguments(bits, 2, req), ReduceArguments(bits, 2 + |req|, f.optional.value), f)
  }

  /** `parseCommand(identifier, formats, message)`. */
  function ParseCommand(identifier: string, formats: seq<Format>, message: string): ParseResult
  {
    ParseWords(identifier, formats, CommandWords(message))
  }

  /** On success every required name has a key, and the word it names is defined. */
  lemma ParsedRequiredDefined(identifier: string, formats: seq<Format>, message: string, n: nat)
    requires ParseCommand(identifier, formats, message).Parsed?
    requires var req := ParseCommand(identifier, formats, message).matchingFormat.required.value;
      n < |req| && forall m :: n < m < |req| ==> req[m] != req[n]
    ensures var r := ParseCommand(identifier, formats, message);
      var req := r.matchingFormat.required.value;
      req[n] in r.reqArgs && r.reqArgs[req[n]] == Some(CommandWords(message)[n + 2])
  {
    var r := ParseCommand(identifier, formats, message);
    ReduceArgumentsValue(CommandWords(message), 2, r.matchingFormat.required.value, n);
  }

  /** On success the required arguments have no key beyond the required names. */
  lemma ParsedRequiredKeys(identifier: string, formats: seq<Format>, message: string, key: string)
    requires ParseCommand(identifier, formats, message).Parsed?
    ensures var r := ParseCommand(identifier, formats, message);
      key in r.reqArgs <==> key in r.matchingFormat.required.value
  {
    var r := ParseCommand(identifier, formats, message);
    var req := r.matchingFormat.required.value;
    ReduceArgumentsKeys(CommandWords(message), 2, req, key);
    if key in req {
      var n :| 0 <= n < |req| && req[n] == key;
      assert n + 2 <= |CommandWords(message)|;
    }
  }

  /** A name used once gets a key exactly when its position is within the words; at the end it is `undefined`. */
  lemma ReduceArgumentsBound(bits: seq<string>, offset: nat, names: seq<string>, n: nat)
    requires n < |names| && forall m :: 0 <= m < |names| && m != n ==> names[m] != names[n]
    ensures names[n] in ReduceArguments(bits, offset, names) <==> n + offset <= |bits|
    ensures n + offset <= |bits| ==> ReduceArguments(bits, offset, names)[names[n]] == ArgAt(bits, n + offset)
  {
    ReduceArgumentsKeys(bits, offset, names, names[n]);
    if n + offset <= |bits| {
      ReduceArgumentsValue(bits, offset, names, n);
    }
  }

  /** On success both argument maps come from the matching format's lists. */
  lemma ParsedArgs(identifier: string, formats: seq<Format>, bits: seq<string>)
    requires ParseWords(identifier, formats, bits).Parsed?
    ensures var r := ParseWords(identifier, formats, bits);
      var req := r.matchingFormat.required.value;
      && r.reqArgs == ReduceArguments(bits, 2, req)
      && r.optArgs == ReduceArguments(bits, 2 + |req|, r.matchingFormat.optional.value)
  {
    var f := MatchingFormat(SecondWord(bits), formats).value;
    assert ParseWords(identifier, formats, bits) ==
      Parsed(f.name, ReduceArguments(bits, 2, f.required.value),
        ReduceArguments(bits, 2 + |f.required.value|, f.optional.value), f);
  }

  /**
   * An optional name at position `n`, used once, gets a key exactly when
   * there are at least `n` words after the required ones.
   */
  lemma ParsedOptionalKey(identifier: string, formats: seq<Format>, bits: seq<string>, n: nat)
    requires ParseWords(identifier, formats, bits).Parsed?
    requires var opt := ParseWords(identifier, formats, bits).matchingFormat.optional.value;
      n < |opt| && forall m :: 0 <= m < |opt| && m != n ==> opt[m] != opt[n]
    ensures var r := ParseWords(identifier, formats, bits);
      r.matchingFormat.optional.value[n] in r.optArgs <==> n + 2 + |r.matchingFormat.required.value| <= |bits|
  {
    var f := ParseWords(identifier, formats, bits).matchingFormat;
    ParsedArgs(identifier, formats, bits);
    ReduceArgumentsBound(bits, 2 + |f.required.value|, f.optional.value, n);
  }

  /**
   * The value of that key is the word at its position, `undefined` when
   * there are exactly `n` words after the required ones.
   */
  lemma ParsedOptionalValue(identifier: string, formats: seq<Format>, bits: seq<string>, n: nat)
    requires ParseWords(identifier, formats, bits).Parsed?
    requires var f := ParseWords(identifier, formats, bits).matchingFormat;
      var opt := f.optional.value;
      && n < |opt| && (forall m :: 0 <= m < |opt| && m != n ==> opt[m] != opt[n])
      && n + 2 + |f.required.value| <= |bits|
    ensures var r := ParseWords(identifier, formats, bits);
      var offset := 2 + |r.matchingFormat.required.value|;
      var opt := r.matchingFormat.optional.value;
      opt[n] in r.optArgs && r.optArgs[opt[n]] == ArgAt(bits, n + offset)
  {
    var r := ParseWords(identifier, formats, bits);
    var offset := 2 + |r.matchingFormat.required.value|;
    var opt := r.matchingFormat.optional.value;
    ParsedArgs(identifier, formats, bits);
    var a := ReduceArguments(bits, offset, opt);
    assert r.optArgs == a;
    ReduceArgumentsBound(bits, offset, opt, n);
    assert a[opt[n]] == ArgAt(bits, n + offset);
  }

  /** The word-level half of `ParseTypedCommand`. */
  lemma ParseTypedWords(identifier: string, command: string, args: seq<string>, formats: seq<Format>, n: nat)
    requires MatchingFormat(Some(command), formats).Some?
    requires var f := MatchingFormat(Some(command), formats).value;
      f.required.Some? && f.optional.Some? && |f.required.value| <= |args|
    requires var req := MatchingFormat(Some(command), formats).value.required.value;
      n < |req| && forall m :: n < m < |req| ==> req[m] != req[n]
    ensures var f := MatchingFormat(Some(command), formats).value;
      var req := f.required.value;
      var r := ParseWords(identifier, formats, [identifier, command] + args);
      && r.Parsed? && r.name == f.name && r.matchingFormat == f
      && req[n] in r.reqArgs && r.reqArgs[req[n]] == Some(args[n])
  {
    var ws := [identifier, command] + args;
    assert SecondWord(ws) == Some(command);
    var req := MatchingFormat(Some(command), formats).value.required.value;
    ReduceArgumentsValue(ws, 2, req, n);
    assert ws[n + 2] == args[n];
  }

  /**
   * A command typed as words separated by single spaces: the identifier,
   * the command, then the arguments. It parses with the first matching
   * format, and each argument lands on its required name in order.
   */
  lemma ParseTypedCommand(identifier: string, command: string, args: seq<string>, formats: seq<Format>, n: nat)
    requires forall k :: 0 <= k < |args| ==> IsWord(args[k]) && '<' !in args[k]
    requires IsWord(identifier) && '<' !in identifier && IsWord(command) && '<' !in command
    requires MatchingFormat(Some(command), formats).Some?
    requires var f := MatchingFormat(Some(command), formats).value;
      f.required.Some? && f.optional.Some? && |f.required.value| <= |args|
    requires var req := MatchingFormat(Some(command), formats).value.required.value;
      n < |req| && forall m :: n < m < |req| ==> req[m] != req[n]
    ensures var f := MatchingFormat(Some(command), formats).value;
      var req := f.required.value;
      var r := ParseCommand(identifier, formats, Join([identifier, command] + args, " "));
      && r.Parsed? && r.name == f.name && r.matchingFormat == f
      && req[n] in r.reqArgs && r.reqArgs[req[n]] == Some(args[n])
  {
    var ws := [identifier, command] + args;
    assert forall k :: 0 <= k < |ws| ==> IsWord(ws[k]) && '<' !in ws[k] by {
      forall k | 0 <= k < |ws| ensures IsWord(ws[k]) && '<' !in ws[k] {
        if k >= 2 {
          assert ws[k] == args[k - 2];
        }
      }
    }
    CommandWordsOfJoin(ws);
    ParseTypedWords(identifier, command, args, formats, n);
  }

  // ------------------------------------------------------------------- usage

  /**
   * The argument tokens of a usage line: `__:name__` for each name, after
   * `open` — empty for required names, `[` for optional ones.
   */
  function ArgTokens(open: string, names: seq<string>): (ts: seq<string>)
    ensures |ts| == |names| && forall k :: 0 <= k < |ts| ==> ts[k] == open + "__:" + names[k] + "__"
  {
    if names == [] then [] else [open + "__:" + names[0] + "__"] + ArgTokens(open, names[1..])
  }

  /** A template literal renders `undefined` for a missing value. */
  function Shown(v: Option<string>): string
  {
    match v case Some(s) => s case None => "undefined"
  }

  /** `formatUsage`, with the registered bot name; throws (`None`) on a format without its lists. */
  function FormatUsage(botName: Option<string>, identifier: string, f: Format): (r: Option<string>)
    ensures r.Some? <==> f.required.Some? && f.optional.Some?
  {
    if f.required.None? || f.optional.None? then None
    else
      var reqArgs := Join(ArgTokens("", f.required.value), " ");
      var optArgs := Join(ArgTokens("[", f.optional.value), " ") + Repeat(']', |f.optional.value|);
      Some("@" + Shown(botName) + " " + identifier + " " + f.name + " " + Trim(reqArgs + " " + optArgs))
  }

  lemma JoinedTokensEnds(ts: seq<string>, first: char, last: char)
    requires ts != [] && forall k :: 0 <= k < |ts| ==> |ts[k]| >= 2 && ts[k][0] == first && ts[k][|ts[k]| - 1] == last
    ensures var j := Join(ts, " "); |j| >= 2 && j[0] == first && j[|j| - 1] == last
  {
    JoinEnds(ts, " ");
    var j := Join(ts, " ");
    var l := ts[|ts| - 1];
    assert j[|j| - |l|..][|l| - 1] == l[|l| - 1];
  }

  /** The argument part of the usage line, trimmed, is the tokens joined by single spaces and the closing brackets. */
  lemma TrimUsageArgs(rt: seq<string>, ot: seq<string>, closing: string)
    requires forall k :: 0 <= k < |rt| ==> |rt[k]| >= 2 && rt[k][0] == '_' && rt[k][|rt[k]| - 1] == '_'
    requires forall k :: 0 <= k < |ot| ==> |ot[k]| >= 2 && ot[k][0] == '[' && ot[k][|ot[k]| - 1] == '_'
    requires closing == [] <==> ot == []
    requires closing != [] ==> closing[|closing| - 1] == ']'
    ensures Trim(Join(rt, " ") + " " + (Join(ot, " ") + closing)) == Join(rt + ot, " ") + closing
  {
    if rt == [] && ot == [] {
      TrimNoArgs();
      assert rt + ot == [];
    } else if rt == [] {
      JoinedTokensEnds(ot, '[', '_');
      TrimLeadingSpace(Join(ot, " ") + closing);
      assert rt + ot == ot;
    } else if ot == [] {
      JoinedTokensEnds(rt, '_', '_');
      TrimTrailingSpace(Join(rt, " "));
      assert rt + ot == rt;
    } else {
      JoinedTokensEnds(rt, '_', '_');
      JoinedTokensEnds(ot, '[', '_');
      JoinConcat(rt, ot, " ");
      var s := Join(rt, " ") + " " + (Join(ot, " ") + closing);
      assert s == Join(rt + ot, " ") + closing;
      TrimUnpadded(s);
    }
  }

  lemma TrimNoArgs()
    ensures Trim([] + " " + ([] + [])) == []
  {
    assert [] + " " + ([] + []) == " " + [] + [];
    TrimSurrounded(" ", [], []);
  }

  lemma TrimLeadingSpace(s: string)
    requires s != [] && !IsWhitespace(s[0]) && !IsWhitespace(s[|s| - 1])
    ensures Trim([] + " " + s) == s
  {
    assert [] + " " + s == " " + s + [];
    TrimSurrounded(" ", s, []);
  }

  lemma TrimTrailingSpace(s: string)
    requires s != [] && !IsWhitespace(s[0]) && !IsWhitespace(s[|s| - 1])
    ensures Trim(s + " " + ([] + [])) == s
  {
    assert s + " " + ([] + []) == [] + s + " ";
    TrimSurrounded([], s, " ");
  }

  lemma TrimUnpadded(s: string)
    requires s != [] && !IsWhitespace(s[0]) && !IsWhitespace(s[|s| - 1])
    ensures Trim(s) == s
  {
    assert s == [] + s + [];
    TrimSurrounded([], s, []);
  }

  /**
   * The usage line: `@bot identifier name `, then the required tokens and
   * the optional tokens separated by single spaces, then one `]` per
   * optional name.
   */
  lemma FormatUsageShape(botName: Option<string>, identifier: string, f: Format)
    requires f.required.Some? && f.optional.Some?
    ensures var req := f.required.value;
      var opt := f.optional.value;
      FormatUsage(botName, identifier, f) == Some("@" + Shown(botName) + " " + identifier + " " + f.name + " "
        + Join(ArgTokens("", req) + ArgTokens("[", opt), " ") + Repeat(']', |opt|))
  {
    var req, opt := f.required.value, f.optional.value;
    var rt, ot, closing := ArgTokens("", req), ArgTokens("[", opt), Repeat(']', |opt|);
    TrimUsageArgs(rt, ot, closing);
    var lead := "@" + Shown(botName) + " " + identifier + " " + f.name + " ";
    assert FormatUsage(botName, identifier, f) == Some(lead + Trim(Join(rt, " ") + " " + (Join(ot, " ") + closing)));
    ConcatAssoc(lead, Join(rt + ot, " "), closing);
  }

  lemma ConcatAssoc(a: string, b: string, c: string)
    ensures a + (b + c) == a + b + c
  {
  }

  /** The entry of one format in the help text. */
  function HelpEntry(botName: Option<string>, identifier: string, f: Format): (r: Option<string>)
    ensures r.Some? <==> f.required.Some? && f.optional.Some?
  {
    match FormatUsage(botName, identifier, f)
    case None => None
    case Some(usage) => Some("**" + f.name + "** - " + usage + "\n" + Shown(f.description) + "\n")
  }

  /** The values of a list of options, if none of them is missing (a `map` that throws on the first). */
  function AllPresent<T>(xs: seq<Option<T>>): Option<seq<T>>
  {
    if xs == [] then Some([])
    else match (xs[0], AllPresent(xs[1..]))
      case (Some(x), Some(rest)) => Some([x] + rest)
      case _ => None
  }

  lemma {:induction false} AllPresentEach<T>(xs: seq<Option<T>>)
    ensures AllPresent(xs).Some? <==> forall k :: 0 <= k < |xs| ==> xs[k].Some?
    ensures AllPresent(xs).Some? ==> |AllPresent(xs).value| == |xs|
    ensures AllPresent(xs).Some? ==> forall k :: 0 <= k < |xs| ==> Some(AllPresent(xs).value[k]) == xs[k]
  {
    if xs != [] {
      var tl := xs[1..];
      AllPresentEach(tl);
      assert forall k :: 1 <= k < |xs| ==> tl[k - 1] == xs[k];
    }
  }

  /** The help entries of all formats; throws as soon as one format lacks its lists. */
  function HelpEntries(botName: Option<string>, identifier: string, formats: seq<Format>): Option<seq<string>>
  {
    AllPresent(seq(|formats|, k requires 0 <= k < |formats| => HelpEntry(botName, identifier, formats[k])))
  }

  /** The help entries exist exactly when every format has both lists, and come one per format, in order. */
  lemma HelpEntriesEach(botName: Option<string>, identifier: string, formats: seq<Format>)
    ensures HelpEntries(botName, identifier, formats).Some? <==>
      forall k :: 0 <= k < |formats| ==> formats[k].required.Some? && formats[k].optional.Some?
    ensures var r := HelpEntries(botName, identifier, formats);
      r.Some? ==> |r.value| == |formats| && forall k :: 0 <= k < |formats| ==> Some(r.value[k]) == HelpEntry(botName, identifier, formats[k])
  {
    var xs := seq(|formats|, k requires 0 <= k < |formats| => HelpEntry(botName, identifier, formats[k]));
    AllPresentEach(xs);
    assert forall k :: 0 <= k < |formats| ==> xs[k] == HelpEntry(botName, identifier, formats[k]);
  }

  const HelpHeading := "The following commands are accepted:\n\n"

  /** `showCommandHelp`: the heading, then the entries separated by blank lines. */
  function ShowCommandHelp(botName: Option<string>, identifier: string, formats: seq<Format>): (r: Option<string>)
    ensures r.Some? <==> forall k :: 0 <= k < |formats| ==> formats[k].required.Some? && formats[k].optional.Some?
    ensures r.Some? ==> StartsWith(r.value, HelpHeading)
    ensures r.Some? ==>
      (r.value[|HelpHeading|..] ==
       Join(seq(|formats|, k requires 0 <= k < |formats| => HelpEntry(botName, identifier, formats[k]).value), "\n"))
  {
    HelpEntriesEach(botName, identifier, formats);
    match HelpEntries(botName, identifier, formats)
    case None => None
    case Some(entries) =>
      assert entries == seq(|formats|, k requires 0 <= k < |formats| => HelpEntry(botName, identifier, formats[k]).value);
      assert (HelpHeading + Join(entries, "\n"))[|HelpHeading|..] == Join(entries, "\n");
      Some(HelpHeading + Join(entries, "\n"))
  }

  // --------------------------------------------------------- channel paths

  /** `c` is the lower-case ASCII letter `lower`, or its upper-case form (the `i` flag). */
  predicate LetterIgnoringCase(c: char, lower: char)
    requires 'a' <= lower <= 'z'
  {
    c == lower || c as int == lower as int - 32
  }

  /** `/api/v` at `i`, ignoring case. */
  predicate ApiPrefixAt(s: string, i: nat)
  {
    && i + 6 <= |s| && s[i] == '/' && LetterIgnoringCase(s[i + 1], 'a') && LetterIgnoringCase(s[i + 2], 'p')
    && LetterIgnoringCase(s[i + 3], 'i') && s[i + 4] == '/' && LetterIgnoringCase(s[i + 5], 'v')
  }

  /** `/channels/` at `i`, ignoring case. */
  predicate ChannelsInfixAt(s: string, i: nat)
  {
    && i + 10 <= |s| && s[i] == '/' && LetterIgnoringCase(s[i + 1], 'c') && LetterIgnoringCase(s[i + 2], 'h')
    && LetterIgnoringCase(s[i + 3], 'a') && LetterIgnoringCase(s[i + 4], 'n') && LetterIgnoringCase(s[i + 5], 'n')
    && LetterIgnoringCase(s[i + 6], 'e') && LetterIgnoringCase(s[i + 7], 'l') && LetterIgnoringCase(s[i + 8], 's')
    && s[i + 9] == '/'
  }

  predicate AllDigits(d: string)
  {
    d != [] && forall k :: 0 <= k < |d| ==> IsDigit(d[k])
  }

  /** The number of digits in `s` from position `i` on, up to the first non-digit. */
  function DigitsFrom(s: string, i: nat): (n: nat)
    requires i <= |s|
    ensures i + n <= |s|
    ensures forall k :: i <= k < i + n ==> IsDigit(s[k])
    ensures i + n == |s| || !IsDigit(s[i + n])
    decreases |s| - i
  {
    if i < |s| && IsDigit(s[i]) then 1 + DigitsFrom(s, i + 1) else 0
  }

  /** A match of `/\/api\/v[0-9]+\/channels\/([0-9]+)\//i` starting at `i`, and its group. */
  function ChannelAt(s: string, i: nat): (r: Option<string>)
    ensures r.Some? ==> AllDigits(r.value)
  {
    if !ApiPrefixAt(s, i) then None
    else
      var v := DigitsFrom(s, i + 6);
      var q := i + 6 + v;
      if v == 0 || !ChannelsInfixAt(s, q) then None
      else
        var d := DigitsFrom(s, q + 10);
        var c := q + 10;
        if d != 0 && c + d < |s| && s[c + d] == '/' then Some(s[c..c + d]) else None
  }

  /** The position of the leftmost match from position `i` on. */
  function FirstChannel(s: string, i: nat): (r: Option<nat>)
    requires i <= |s|
    ensures r.None? ==> forall j :: i <= j <= |s| ==> ChannelAt(s, j).None?
    ensures r.Some? ==> i <= r.value <= |s| && ChannelAt(s, r.value).Some?
    ensures r.Some? ==> forall k :: i <= k < r.value ==> ChannelAt(s, k).None?
    decreases |s| - i
  {
    if i == |s| then (if ChannelAt(s, i).Some? then Some(i) else None)
    else if ChannelAt(s, i).Some? then Some(i)
    else FirstChannel(s, i + 1)
  }

  /** `getChannelFromPath`: the channel id in a Discord API path, if there is one. */
  function GetChannelFromPath(path: string): (r: Option<string>)
    ensures r.Some? ==> AllDigits(r.value)
    ensures r.None? <==> forall j :: 0 <= j <= |path| ==> ChannelAt(path, j).None?
    ensures r.Some? ==> exists j :: 0 <= j <= |path| && r == ChannelAt(path, j) && forall k :: 0 <= k < j ==> ChannelAt(path, k).None?
  {
    match FirstChannel(path, 0)
    case Some(j) => ChannelAt(path, j)
    case None => None
  }

  /** A run of exactly `n` digits at `i`, followed by a non-digit or the end. */
  lemma {:induction false} DigitsFromExact(s: string, i: nat, n: nat)
    requires i + n <= |s|
    requires forall k :: i <= k < i + n ==> IsDigit(s[k])
    requires i + n == |s| || !IsDigit(s[i + n])
    ensures DigitsFrom(s, i) == n
    decreases n
  {
    if n > 0 {
      DigitsFromExact(s, i + 1, n - 1);
    }
  }

  /** `n` digits at position `i` of `s`. */
  predicate DigitsAt(s: string, i: nat, n: nat)
  {
    i + n <= |s| && forall k :: i <= k < i + n ==> IsDigit(s[k])
  }

  lemma ApiPrefixExtend(p: string, t: string)
    requires ApiPrefixAt(p, 0)
    ensures ApiPrefixAt(p + t, 0)
  {
  }

  lemma ChannelsInfixShift(a: string, x: string)
    requires ChannelsInfixAt(x, 0)
    ensures ChannelsInfixAt(a + x, |a|)
  {
  }

  lemma ChannelsInfixExtend(p: string, t: string, i: nat)
    requires ChannelsInfixAt(p, i)
    ensures ChannelsInfixAt(p + t, i)
  {
  }

  lemma DigitsShift(a: string, x: string)
    requires AllDigits(x)
    ensures DigitsAt(a + x, |a|, |x|)
  {
  }

  lemma DigitsExtend(p: string, t: string, i: nat, n: nat)
    requires DigitsAt(p, i, n)
    ensures DigitsAt(p + t, i, n)
  {
  }

  lemma SliceMiddle(a: string, x: string, b: string)
    ensures (a + x + b)[|a|..|a| + |x|] == x
  {
    assert (a + x + b)[|a|..|a| + |x|] == (a + x)[|a|..];
  }

  /** A match at the start of `s`, stated part by part. */
  lemma ChannelAtParts(s: string, v: nat, d: nat)
    requires ApiPrefixAt(s, 0) && v > 0 && d > 0 && 6 + v + 10 + d < |s|
    requires DigitsAt(s, 6, v)
    requires ChannelsInfixAt(s, 6 + v)
    requires DigitsAt(s, 6 + v + 10, d)
    requires s[6 + v + 10 + d] == '/'
    ensures ChannelAt(s, 0) == Some(s[6 + v + 10..6 + v + 10 + d])
  {
    DigitsFromExact(s, 6, v);
    DigitsFromExact(s, 6 + v + 10, d);
  }

  /** The pieces of an API path, matched at its start. */
  lemma ChannelAtStart(api: string, version: string, infix: string, channel: string, tail: string)
    requires |api| == 6 && ApiPrefixAt(api, 0)
    requires |infix| == 10 && ChannelsInfixAt(infix, 0)
    requires AllDigits(version) && AllDigits(channel)
    requires tail != [] && tail[0] == '/'
    ensures ChannelAt(api + version + infix + channel + tail, 0) == Some(channel)
  {
    var p1 := api + version;
    var p2 := p1 + infix;
    var p3 := p2 + channel;
    ApiPrefixExtend(api, version);
    ApiPrefixExtend(p1, infix);
    ApiPrefixExtend(p2, channel);
    ApiPrefixExtend(p3, tail);
    DigitsShift(api, version);
    DigitsExtend(p1, infix, 6, |version|);
    DigitsExtend(p2, channel, 6, |version|);
    DigitsExtend(p3, tail, 6, |version|);
    ChannelsInfixShift(p1, infix);
    ChannelsInfixExtend(p2, channel, |p1|);
    ChannelsInfixExtend(p3, tail, |p1|);
    DigitsShift(p2, channel);
    DigitsExtend(p3, tail, |p2|, |channel|);
    SliceMiddle(p2, channel, tail);
    assert (p3 + tail)[|p3|] == tail[0];
    ChannelAtParts(p3 + tail, |version|, |channel|);
  }

  /**
   * The channel is read back from a path built from an API version and a
   * channel id; `api` and `infix` are `/api/v` and `/channels/` in any case.
   */
  lemma ChannelOfApiPath(api: string, version: string, infix: string, channel: string, rest: string)
    requires |api| == 6 && ApiPrefixAt(api, 0)
    requires |infix| == 10 && ChannelsInfixAt(infix, 0)
    requires AllDigits(version) && AllDigits(channel)
    ensures GetChannelFromPath(api + version + infix + channel + "/" + rest) == Some(channel)
  {
    var s := api + version + infix + channel + "/" + rest;
    assert s == api + version + infix + channel + ("/" + rest);
    ChannelAtStart(api, version, infix, channel, "/" + rest);
    assert FirstChannel(s, 0) == Some(0);
  }

  /** The example path of the source's documentation. */
  lemma ChannelOfDocumentedPath()
    ensures GetChannelFromPath("/api/v" + "7" + "/channels/" + "454275744751812608" + "/" + "") == Some("454275744751812608")
  {
    assert ApiPrefixAt("/api/v", 0);
    assert ChannelsInfixAt("/channels/", 0);
    assert AllDigits("7");
    assert AllDigits("454275744751812608");
    ChannelOfApiPath("/api/v", "7", "/channels/", "454275744751812608", "");
  }

  // ------------------------------------------------------ channel references

  /** `channel` occurs as a string somewhere in `obj` (the leaves `findChannel` compares). */
  predicate Mentions(obj: Json, channel: string)
  {
    match obj
    case JString(s) => s == channel
    case JArray(es) => exists i :: 0 <= i < |es| && Mentions(es[i], channel)
    case JObject(ms) => exists i :: 0 <= i < |ms| && Mentions(ms[i].value, channel)
    case _ => false
  }

  /** `found` extends `path` by a suffix that leads from `obj` to the channel string. */
  predicate FoundBelow(path: seq<Step>, obj: Json, channel: string, found: seq<Step>)
  {
    && |path| <= |found| && found[..|path|] == path
    && (Valid(obj) ==> At(obj, found[|path|..]) == Some(JString(channel)))
  }

  /** A result found one step below `obj` is found below `obj` itself. */
  lemma FoundOneStepDown(path: seq<Step>, obj: Json, step: Step, child: Json, channel: string, found: seq<Step>)
    requires Valid(obj) ==> Valid(child) && Property(obj, step) == Some(child)
    requires FoundBelow(path + [step], child, channel, found)
    ensures FoundBelow(path, obj, channel, found)
  {
    assert found[..|path|] == found[..|path| + 1][..|path|];
    assert found[|path|..] == [step] + found[|path| + 1..];
    if Valid(obj) {
      AtStep(obj, step, child, found[|path| + 1..]);
    }
  }

  /**
   * `findChannel` with the evidently intended search: the members of an
   * object, then the elements of an array, are searched in order and the
   * first path found is returned.
   */
  method FindChannel(path: seq<Step>, obj: Json, channel: string) returns (r: Option<seq<Step>>)
    ensures r.Some? <==> Mentions(obj, channel)
    ensures r.Some? ==> FoundBelow(path, obj, channel, r.value)
    decreases obj
  {
    match obj {
      case JObject(ms) =>
        var k := 0;
        while k < |ms|
          invariant 0 <= k <= |ms|
          invariant forall j :: 0 <= j < k ==> !Mentions(ms[j].value, channel)
        {
          assert ms[k] in ms;
          var found := FindChannel(path + [Key(ms[k].key)], ms[k].value, channel);
          if found.Some? {
            if Valid(obj) {
              MemberByKey(ms, k);
            }
            FoundOneStepDown(path, obj, Key(ms[k].key), ms[k].value, channel, found.value);
            return found;
          }
          k := k + 1;
        }
        return None;
      case JArray(es) =>
        var k := 0;
        while k < |es|
          invariant 0 <= k <= |es|
          invariant forall j :: 0 <= j < k ==> !Mentions(es[j], channel)
        {
          var found := FindChannel(path + [Index(k)], es[k], channel);
          if found.Some? {
            FoundOneStepDown(path, obj, Index(k), es[k], channel, found.value);
            return found;
          }
          k := k + 1;
        }
        return None;
      case JString(s) =>
        if s == channel {
          assert path[..|path|] == path && path[|path|..] == [];
          return Some(path);
        }
        return None;
      case _ =>
        return None;
    }
  }

  /**
   * The only strings `findChannel` as written can find: `result` is
   * reassigned on every iteration, so only the last member of an object,
   * or the last element of an array, is looked into.
   */
  predicate LastMentions(obj: Json, channel: string)
  {
    match obj
    case JString(s) => s == channel
    case JArray(es) => |es| > 0 && LastMentions(es[|es| - 1], channel)
    case JObject(ms) => |ms| > 0 && LastMentions(ms[|ms| - 1].value, channel)
    case _ => false
  }

  /** `findChannel` as written, keeping the result of the last child only. */
  method FindChannelAsWritten(path: seq<Step>, obj: Json, channel: string) returns (r: Option<seq<Step>>)
    ensures r.Some? <==> LastMentions(obj, channel)
    decreases obj
  {
    var result: Option<seq<Step>> := None;
    if obj.JObject? {
      var ms := obj.members;
      var k := 0;
      while k < |ms|
        invariant 0 <= k <= |ms|
        invariant result.Some? <==> 0 < k && LastMentions(ms[k - 1].value, channel)
      {
        assert ms[k] in ms;
        result := FindChannelAsWritten(path + [Key(ms[k].key)], ms[k].value, channel);
        k := k + 1;
      }
      if result.Some? {
        return result;
      }
    }
    if obj.JArray? {
      var es := obj.elems;
      var k := 0;
      while k < |es|
        invariant 0 <= k <= |es|
        invariant result.Some? <==> 0 < k && LastMentions(es[k - 1], channel)
      {
        result := FindChannelAsWritten(path + [Index(k)], es[k], channel);
        k := k + 1;
      }
      if result.Some? {
        return result;
      }
    }
    if obj == JString(channel) {
      return Some(path);
    }
    return None;
  }

  /** A channel in the first of two settings is not found by the search as written. */
  lemma FindChannelAsWrittenMissesFirstMember()
    ensures Mentions(JObject([Member("a", JString("1")), Member("b", JString("2"))]), "1")
    ensures !LastMentions(JObject([Member("a", JString("1")), Member("b", JString("2"))]), "1")
  {
    var ms := [Member("a", JString("1")), Member("b", JString("2"))];
    assert Mentions(ms[0].value, "1");
  }

  /**
   * `findChannelPath`: the path, starting with the task's name, to the first
   * reference to `channel` in the task settings, tasks taken in order.
   */
  method FindChannelPath(tasks: seq<Member>, channel: string) returns (r: Option<seq<Step>>)
    ensures r.Some? <==> exists k :: 0 <= k < |tasks| && Mentions(tasks[k].value, channel)
    ensures r.Some? ==> FoundBelow([], JObject(tasks), channel, r.value)
  {
    var k := 0;
    while k < |tasks|
      invariant 0 <= k <= |tasks|
      invariant forall j :: 0 <= j < k ==> !Mentions(tasks[j].value, channel)
    {
      var found := FindChannel([Key(tasks[k].key)], tasks[k].value, channel);
      if found.Some? {
        if Valid(JObject(tasks)) {
          MemberByKey(tasks, k);
        }
        assert [] + [Key(tasks[k].key)] == [Key(tasks[k].key)];
        FoundOneStepDown([], JObject(tasks), Key(tasks[k].key), tasks[k].value, channel, found.value);
        return found;
      }
      k := k + 1;
    }
    return None;
  }
}
