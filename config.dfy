/**
 * callisto-core lib/config: reading a key of the loaded configuration, and
 * generating the text of a new configuration file from the tasks' templates.
 */
module Config {
  import opened Wrappers
  import opened Strings
  import opened Json

  // ------------------------------------------------------------ getConfigKey

  /** Property names as path steps. */
  function Steps(names: seq<string>): (r: seq<Step>)
    ensures |r| == |names|
    ensures forall k :: 0 <= k < |names| ==> r[k] == Key(names[k])
  {
    seq(|names|, k requires 0 <= k < |names| => Key(names[k]))
  }

  /** A null, undefined or empty namespace selects the system configuration. */
  predicate SystemNamespace(ns: Option<string>)
  {
    ns.None? || ns.value == []
  }

  /** The dotted path `getConfigKey` hands to lodash `get`. */
  function ConfigKeyPath(key: string, ns: Option<string>): string
  {
    (if SystemNamespace(ns) then SystemConfig else TaskConfig + "." + ns.value) + "." + key
  }

  /** lodash `get(obj, path, null)`: the value at the path, `null` when it is absent. */
  function GetOrNull(obj: Json, path: seq<Step>): (r: Json)
    ensures At(obj, path).Some? ==> r == At(obj, path).value
    ensures At(obj, path).None? ==> r == JNull
  {
    match At(obj, path)
    case Some(v) => v
    case None => JNull
  }

  /** `getConfigKey`: the dotted path is split on `.` into property names. */
  function GetConfigKey(key: string, ns: Option<string>, config: Json): Json
  {
    GetOrNull(config, Steps(Split(ConfigKeyPath(key, ns), ".")))
  }

  /** The steps of the namespace, before those of the key. */
  function NamespaceSteps(ns: Option<string>): seq<Step>
  {
    if SystemNamespace(ns) then [Key(SystemConfig)] else [Key(TaskConfig)] + Steps(Split(ns.value, "."))
  }

  lemma StepsConcat(a: seq<string>, b: seq<string>)
    ensures Steps(a + b) == Steps(a) + Steps(b)
  {
  }

  /** The names `getConfigKey` looks up, namespace first. */
  function PathNames(key: string, ns: Option<string>): seq<string>
  {
    (if SystemNamespace(ns) then [SystemConfig] else [TaskConfig] + Split(ns.value, ".")) + Split(key, ".")
  }

  /** A dotted path whose first name has no dot starts with that name. */
  lemma SplitFirstName(w: string, rest: string)
    requires forall k :: 0 <= k < |w| ==> w[k] != '.'
    ensures Split(w + "." + rest, ".") == [w] + Split(rest, ".")
  {
    SplitCharConcat(w, '.', rest);
    SplitNoChar(w, '.');
  }

  const SystemConfig := "systemConfig"
  const TaskConfig := "taskConfig"

  lemma NamesHaveNoDot()
    ensures forall k :: 0 <= k < |SystemConfig| ==> SystemConfig[k] != '.'
    ensures forall k :: 0 <= k < |TaskConfig| ==> TaskConfig[k] != '.'
  {
  }

  lemma SystemPathNames(key: string, ns: Option<string>)
    requires SystemNamespace(ns)
    ensures Split(ConfigKeyPath(key, ns), ".") == PathNames(key, ns)
  {
    NamesHaveNoDot();
    SplitFirstName(SystemConfig, key);
  }

  lemma TaskPathNames(key: string, ns: Option<string>)
    requires !SystemNamespace(ns)
    ensures Split(ConfigKeyPath(key, ns), ".") == PathNames(key, ns)
  {
    NamesHaveNoDot();
    var prefix := TaskConfig + "." + ns.value;
    assert ConfigKeyPath(key, ns) == prefix + "." + key;
    SplitCharConcat(prefix, '.', key);
    SplitFirstName(TaskConfig, ns.value);
  }

  /**
   * The key is read under `systemConfig` for a system namespace and under
   * `taskConfig.<ns>` otherwise, either of them possibly dotted.
   */
  lemma GetConfigKeyReads(key: string, ns: Option<string>, config: Json)
    ensures GetConfigKey(key, ns, config) == GetOrNull(config, NamespaceSteps(ns) + Steps(Split(key, ".")))
  {
    if SystemNamespace(ns) {
      SystemPathNames(key, ns);
    } else {
      TaskPathNames(key, ns);
    }
    PathSteps(key, ns);
  }

  lemma PathSteps(key: string, ns: Option<string>)
    ensures Steps(PathNames(key, ns)) == NamespaceSteps(ns) + Steps(Split(key, "."))
  {
    if SystemNamespace(ns) {
      StepsConcat([SystemConfig], Split(key, "."));
      assert Steps([SystemConfig]) == [Key(SystemConfig)];
    } else {
      StepsConcat([TaskConfig] + Split(ns.value, "."), Split(key, "."));
      StepsConcat([TaskConfig], Split(ns.value, "."));
      assert Steps([TaskConfig]) == [Key(TaskConfig)];
    }
  }

  /** A plain key of the system configuration is read from there. */
  lemma SystemKeyValue(key: string, ns: Option<string>, config: Json, sys: Json, v: Json)
    requires SystemNamespace(ns)
    requires forall k :: 0 <= k < |key| ==> key[k] != '.'
    requires Property(config, Key(SystemConfig)) == Some(sys)
    requires Property(sys, Key(key)) == Some(v)
    ensures GetConfigKey(key, ns, config) == v
  {
    GetConfigKeyReads(key, ns, config);
    SplitNoChar(key, '.');
    AtStep(config, Key(SystemConfig), sys, [Key(key)]);
    AtStep(sys, Key(key), v, []);
    assert [Key(SystemConfig)] + Steps([key]) == [Key(SystemConfig)] + [Key(key)];
  }

  /** A plain key of a task's configuration is read from `taskConfig.<ns>`. */
  lemma TaskKeyValue(key: string, ns: string, config: Json, tasks: Json, task: Json, v: Json)
    requires ns != []
    requires forall k :: 0 <= k < |ns| ==> ns[k] != '.'
    requires forall k :: 0 <= k < |key| ==> key[k] != '.'
    requires Property(config, Key(TaskConfig)) == Some(tasks)
    requires Property(tasks, Key(ns)) == Some(task)
    requires Property(task, Key(key)) == Some(v)
    ensures GetConfigKey(key, Some(ns), config) == v
  {
    GetConfigKeyReads(key, Some(ns), config);
    SplitNoChar(key, '.');
    SplitNoChar(ns, '.');
    assert NamespaceSteps(Some(ns)) + Steps(Split(key, ".")) == [Key(TaskConfig)] + ([Key(ns)] + ([Key(key)] + []));
    AtStep(config, Key(TaskConfig), tasks, [Key(ns)] + ([Key(key)] + []));
    AtStep(tasks, Key(ns), task, [Key(key)] + []);
    AtStep(task, Key(key), v, []);
  }

  /** Without a system configuration, every system key reads as `null`. */
  lemma MissingSystemConfigIsNull(key: string, config: Json)
    requires Property(config, Key(SystemConfig)).None?
    ensures GetConfigKey(key, None, config) == JNull
  {
    GetConfigKeyReads(key, None, config);
    var path := NamespaceSteps(None) + Steps(Split(key, "."));
    assert path[0] == Key(SystemConfig);
  }

  // ------------------------------------------------------- generateNewConfig

  const Padding := "    "
  const PaddedNewline := "\n    "

  /** `replace(/\n/g, '\n' + padding)`: four spaces after every newline. */
  function Indent(s: string): string
  {
    ReplaceAll(s, "\n", PaddedNewline)
  }

  /** Drops the four spaces that follow each newline. */
  function Unindent(s: string): string
    decreases |s|
  {
    if s == [] then []
    else if 5 <= |s| && s[..5] == PaddedNewline then "\n" + Unindent(s[5..])
    else [s[0]] + Unindent(s[1..])
  }

  /** The padded template input: four spaces in front, and after every newline. */
  function Padded(content: string): (r: string)
    ensures StartsWith(r, Padding)
  {
    Padding + Indent(content)
  }

  /** The padded content with its padding stripped again. */
  function Unpad(p: string): string
    requires StartsWith(p, Padding)
  {
    Unindent(p[4..])
  }

  /** Every newline of `p` is followed by four spaces. */
  predicate NewlinesPadded(p: string)
  {
    forall i :: 0 <= i < |p| && p[i] == '\n' ==> i + 5 <= |p| && p[i + 1..i + 5] == Padding
  }

  lemma IndentCons(c: char, s: string)
    ensures Indent([c] + s) == (if c == '\n' then PaddedNewline else [c]) + Indent(s)
  {
    ReplaceCharCons(c, s, '\n', PaddedNewline);
  }

  lemma IndentEmpty()
    ensures Indent([]) == []
  {
    assert Split([], "\n") == [[]];
  }

  /** Unindenting undoes the indentation. */
  lemma {:induction false} UnindentIndent(s: string)
    ensures Unindent(Indent(s)) == s
    decreases |s|
  {
    if s == [] {
      IndentEmpty();
    } else {
      var c, t := s[0], s[1..];
      assert s == [c] + t;
      IndentCons(c, t);
      UnindentIndent(t);
      var p := Indent(s);
      if c == '\n' {
        assert p[..5] == PaddedNewline && p[5..] == Indent(t);
      } else {
        assert p[0] == c && p[1..] == Indent(t);
      }
    }
  }

  /** A newline-free prefix keeps every newline padded. */
  lemma PrefixKeepsPadded(h: string, p: string)
    requires forall k :: 0 <= k < |h| ==> h[k] != '\n'
    requires NewlinesPadded(p)
    ensures NewlinesPadded(h + p)
  {
    var q := h + p;
    forall i | 0 <= i < |q| && q[i] == '\n' ensures i + 5 <= |q| && q[i + 1..i + 5] == Padding {
      var j := i - |h|;
      assert q[i] == p[j];
      assert q[i + 1..i + 5] == p[j + 1..j + 5];
    }
  }

  /** A padded newline in front keeps every newline padded. */
  lemma PaddedNewlineKeepsPadded(p: string)
    requires NewlinesPadded(p)
    ensures NewlinesPadded(PaddedNewline + p)
  {
    var q := PaddedNewline + p;
    forall i | 0 <= i < |q| && q[i] == '\n' ensures i + 5 <= |q| && q[i + 1..i + 5] == Padding {
      if i < 5 {
        assert i == 0;
        assert q[1..5] == Padding;
      } else {
        var j := i - 5;
        assert q[i] == p[j];
        assert q[i + 1..i + 5] == p[j + 1..j + 5];
      }
    }
  }

  lemma {:induction false} IndentPadsNewlines(s: string)
    ensures NewlinesPadded(Indent(s))
    decreases |s|
  {
    if s == [] {
      IndentEmpty();
    } else {
      var c, t := s[0], s[1..];
      assert s == [c] + t;
      IndentCons(c, t);
      IndentPadsNewlines(t);
      if c == '\n' {
        PaddedNewlineKeepsPadded(Indent(t));
      } else {
        PrefixKeepsPadded([c], Indent(t));
      }
    }
  }

  /**
   * The padded content starts with four spaces, has four spaces after every
   * newline, and gives back the content once they are stripped.
   */
  lemma PaddedShape(content: string)
    ensures StartsWith(Padded(content), Padding)
    ensures NewlinesPadded(Padded(content))
    ensures Unpad(Padded(content)) == content
  {
    IndentPadsNewlines(content);
    PrefixKeepsPadded(Padding, Indent(content));
    assert Padded(content)[4..] == Indent(content);
    UnindentIndent(content);
  }

  /** What `configTpl` is given: the template outputs joined by `,\n`, padded. */
  function TemplateInput(outputs: seq<string>): string
  {
    Padded(Join(outputs, ",\n"))
  }

  /**
   * `generateNewConfig`, with the template outputs already computed and the
   * main template as a function: the trimmed main template and one newline.
   */
  function GenerateNewConfig(outputs: seq<string>, configTpl: string -> string): (r: string)
    ensures |r| >= 1 && r[|r| - 1] == '\n'
    ensures r == "\n" || (!IsWhitespace(r[0]) && !IsWhitespace(r[|r| - 2]))
    ensures r[..|r| - 1] == Trim(configTpl(TemplateInput(outputs)))
  {
    var trimmed := Trim(configTpl(TemplateInput(outputs)));
    assert trimmed == [] || trimmed[0] == TrimStart(configTpl(TemplateInput(outputs)))[0];
    trimmed + "\n"
  }

  /** The template sees the outputs in task order: one more task appends its output. */
  lemma TemplateInputOrder(outputs: seq<string>, x: string)
    requires outputs != []
    ensures Unpad(TemplateInput(outputs + [x])) == Unpad(TemplateInput(outputs)) + ",\n" + x
  {
    PaddedShape(Join(outputs + [x], ",\n"));
    PaddedShape(Join(outputs, ",\n"));
    JoinSnoc(outputs, x, ",\n");
  }

  /** The generated file is the same whatever white space the template leaves around its text. */
  lemma GenerateIgnoresSurroundingSpace(outputs: seq<string>, configTpl: string -> string, lead: string, body: string, trail: string)
    requires configTpl(TemplateInput(outputs)) == lead + body + trail
    requires AllWhitespace(lead) && AllWhitespace(trail)
    requires body == [] || (!IsWhitespace(body[0]) && !IsWhitespace(body[|body| - 1]))
    ensures GenerateNewConfig(outputs, configTpl) == body + "\n"
  {
    TrimSurrounded(lead, body, trail);
  }
}
