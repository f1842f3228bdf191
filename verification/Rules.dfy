/** The rule-file parser of the boundary checker (internal/tools/boundarycheck/main.go),
    on the lines its scanner delivers, and a printer that inverts it. */
module Rules {
  import opened Text

  const SCHEMA_VERSION := 2

  datatype Rule = Rule(path: string, mode: string, external: seq<string>, listKey: string)

  datatype Config = Config(schemaVersion: int, packages: seq<Rule>)

  datatype Error =
    | DuplicateRule(path: string)
    | EmptyPath
    | MissingMode(path: string)
    | UnknownMode(path: string, mode: string)
    | NoExternal(path: string)
    | MalformedItem
    | EmptyItem(path: string)
    | MalformedLine(path: string)
    | DuplicatePath
    | DuplicateMode
    | InlineExternal
    | UnknownField(key: string)
    | MalformedTopLevel
    | UnknownTopLevel(key: string)
    | NotAnInt(text: string)
    | WrongVersion(version: int)
    | NoPackages

  // ----- the pure helpers

  /** splitKV */
  function SplitKV(s: string): Option<(string, string)> {
    var i := IndexOf(s, ':');
    if i < 0 then None else Some((TrimSpace(s[..i]), TrimSpace(s[i + 1..])))
  }

  predicate IsListField(k: string) { k == "external" }

  function AssignRuleField(r: Rule, k: string, v: string): Result<Rule, Error> {
    if k == "path" then
      if r.path != "" then Err(DuplicatePath) else Ok(r.(path := v))
    else if k == "mode" then
      if r.mode != "" then Err(DuplicateMode) else Ok(r.(mode := v))
    else if k == "external" then
      if v != "" then Err(InlineExternal) else Ok(r)
    else Err(UnknownField(k))
  }

  predicate KnownMode(m: string) { m == "internal" || m == "stdlib" || m == "external" }

  function ValidateRule(r: Rule): Option<Error> {
    if r.path == "" then Some(EmptyPath)
    else if r.mode == "" then Some(MissingMode(r.path))
    else if !KnownMode(r.mode) then Some(UnknownMode(r.path, r.mode))
    else if r.mode == "external" && r.external == [] then Some(NoExternal(r.path))
    else None
  }

  predicate IsDigit(c: char) { '0' <= c <= '9' }

  function DigitRun(s: string): (n: nat)
    ensures n <= |s| && forall i :: 0 <= i < n ==> IsDigit(s[i])
  {
    if s == "" || !IsDigit(s[0]) then 0 else 1 + DigitRun(s[1..])
  }

  function Digits(s: string): nat
    requires forall i :: 0 <= i < |s| ==> IsDigit(s[i])
  {
    if s == "" then 0 else 
      assert IsDigit(s[|s| - 1]);
      10 * Digits(s[..|s| - 1]) + (s[|s| - 1] as int - '0' as int)
  }

  /** fmt.Sscanf(v, "%d"): a signed 64-bit decimal at the front, the rest ignored. */
  function ScanInt(v: string): Option<int> {
    var signed := v != "" && (v[0] == '-' || v[0] == '+');
    var body := if signed then v[1..] else v;
    var n := DigitRun(body);
    if n == 0 then None
    else
      var m := if signed && v[0] == '-' then 0 - Digits(body[..n]) else Digits(body[..n]);
      if -0x8000_0000_0000_0000 <= m < 0x8000_0000_0000_0000 then Some(m) else None
  }

  // ----- the line machine, as a function

  datatype State = State(version: int, packages: seq<Rule>, seen: set<string>, cur: Option<Rule>)

  const START := State(0, [], {}, None)

  predicate IsBlank(stripped: string) { stripped == "" || stripped[0] == '#' }

  predicate IsDash(stripped: string) { |stripped| >= 2 && stripped[..2] == "- " }

  function Flush(st: State): Result<State, Error> {
    match st.cur
    case None => Ok(st)
    case Some(r) =>
      if r.path in st.seen then Err(DuplicateRule(r.path))
      else match ValidateRule(r)
           case Some(e) => Err(e)
           case None => Ok(State(st.version, st.packages + [r], st.seen + {r.path}, None))
  }

  /** Does a dash item open a sibling rule rather than extend the current list? */
  predicate OpensSibling(cur: Option<Rule>, rest: string) {
    || cur.None?
    || cur.value.listKey == ""
    || (SplitKV(rest).Some? && !IsListField(SplitKV(rest).value.0))
  }

  function NewRule(rest: string): Result<Rule, Error> {
    if rest == "" then Ok(Rule("", "", [], ""))
    else match SplitKV(rest)
         case None => Err(MalformedItem)
         case Some(kv) => AssignRuleField(Rule("", "", [], ""), kv.0, kv.1)
  }

  function DashLine(st: State, rest: string): Result<State, Error> {
    if OpensSibling(st.cur, rest) then
      match Flush(st)
      case Err(e) => Err(e)
      case Ok(st') =>
        match NewRule(rest)
        case Err(e) => Err(e)
        case Ok(r) => Ok(st'.(cur := Some(r)))
    else if rest == "" then Err(EmptyItem(st.cur.value.path))
    else
      var r := st.cur.value;
      Ok(st.(cur := Some(r.(external := r.external + [rest]))))
  }

  function FieldLine(st: State, r: Rule, stripped: string): Result<State, Error> {
    match SplitKV(stripped)
    case None => Err(MalformedLine(r.path))
    case Some(kv) =>
      match AssignRuleField(r, kv.0, kv.1)
      case Err(e) => Err(e)
      case Ok(r') => Ok(st.(cur := Some(r'.(listKey := if kv.0 == "external" then kv.0 else ""))))
  }

  function TopLine(st: State, stripped: string): Result<State, Error> {
    if "packages:" <= stripped then Ok(st)
    else match SplitKV(stripped)
         case None => Err(MalformedTopLevel)
         case Some(kv) =>
           if kv.0 != "schema_version" then Err(UnknownTopLevel(kv.0))
           else match ScanInt(kv.1)
                case None => Err(NotAnInt(kv.1))
                case Some(n) => Ok(st.(version := n))
  }

  function Step(st: State, stripped: string): Result<State, Error> {
    if IsBlank(stripped) then Ok(st)
    else if IsDash(stripped) then DashLine(st, TrimSpace(stripped[2..]))
    else if st.cur.Some? then FieldLine(st, st.cur.value, stripped)
    else TopLine(st, stripped)
  }

  function Feed(st: State, lines: seq<string>): Result<State, Error>
    decreases |lines|
  {
    if lines == [] then Ok(st)
    else match Step(st, TrimSpace(lines[0]))
         case Err(e) => Err(e)
         case Ok(st') => Feed(st', lines[1..])
  }

  function Finish(st: State): Result<Config, Error> {
    match Flush(st)
    case Err(e) => Err(e)
    case Ok(st') =>
      var v := if st'.version == 0 then SCHEMA_VERSION else st'.version;
      if v != SCHEMA_VERSION then Err(WrongVersion(v))
      else if st'.packages == [] then Err(NoPackages)
      else Ok(Config(v, st'.packages))
  }

  function Load(lines: seq<string>): Result<Config, Error> {
    match Feed(START, lines)
    case Err(e) => Err(e)
    case Ok(st) => Finish(st)
  }

  // ----- loadConfig, as the source runs it

  method FlushRule(version: int, packages: seq<Rule>, seen: set<string>, cur: Option<Rule>)
    returns (err: Option<Error>, packages': seq<Rule>, seen': set<string>)
    ensures Flush(State(version, packages, seen, cur))
         == if err.Some? then Err(err.value) else Ok(State(version, packages', seen', None))
  {
    packages', seen', err := packages, seen, None;
    if cur.None? {
      return;
    }
    if cur.value.path in seen {
      err := Some(DuplicateRule(cur.value.path));
      return;
    }
    err := ValidateRule(cur.value);
    if err.None? {
      seen' := seen + {cur.value.path};
      packages' := packages + [cur.value];
    }
  }

  method LoadConfig(lines: seq<string>) returns (r: Result<Config, Error>)
    ensures r == Load(lines)
  {
    hide TrimSpace, SplitKV, AssignRuleField, ValidateRule, ScanInt, IsBlank;
    var version, packages, seen, cur := 0, [], {}, None;
    var i := 0;
    assert lines[0..] == lines;
    while i < |lines|
      invariant 0 <= i <= |lines|
      invariant Feed(START, lines) == Feed(State(version, packages, seen, cur), lines[i..])
    {
      ghost var before := State(version, packages, seen, cur);
      var stripped := TrimSpace(lines[i]);
      assert lines[i..][0] == lines[i] && lines[i..][1..] == lines[i + 1..];
      i := i + 1;
      if IsBlank(stripped) {
        continue;
      }
      if IsDash(stripped) {
        var rest := TrimSpace(stripped[2..]);
        var isSiblingKey := false;
        if cur.Some? {
          var kv := SplitKV(rest);
          if kv.Some? && !IsListField(kv.value.0) {
            isSiblingKey := true;
          }
        }
        if cur.None? || cur.value.listKey == "" || isSiblingKey {
          var err, packages', seen' := FlushRule(version, packages, seen, cur);
          if err.Some? {
            return Err(err.value);
          }
          packages, seen := packages', seen';
          var next := Rule("", "", [], "");
          if rest != "" {
            var kv := SplitKV(rest);
            if kv.None? {
              return Err(MalformedItem);
            }
            var field := AssignRuleField(next, kv.value.0, kv.value.1);
            if field.Err? {
              return Err(field.error);
            }
            next := field.value;
          }
          cur := Some(next);
          continue;
        }
        if rest == "" {
          return Err(EmptyItem(cur.value.path));
        }
        cur := Some(cur.value.(external := cur.value.external + [rest]));
      } else if cur.Some? {
        var kv := SplitKV(stripped);
        if kv.None? {
          return Err(MalformedLine(cur.value.path));
        }
        var field := AssignRuleField(cur.value, kv.value.0, kv.value.1);
        if field.Err? {
          return Err(field.error);
        }
        cur := Some(field.value.(listKey := if kv.value.0 == "external" then kv.value.0 else ""));
      } else if "packages:" <= stripped {
        continue;
      } else {
        var kv := SplitKV(stripped);
        if kv.None? {
          return Err(MalformedTopLevel);
        }
        if kv.value.0 != "schema_version" {
          return Err(UnknownTopLevel(kv.value.0));
        }
        var n := ScanInt(kv.value.1);
        if n.None? {
          return Err(NotAnInt(kv.value.1));
        }
        version := n.value;
      }
    }
    var err, packages', seen' := FlushRule(version, packages, seen, cur);
    if err.Some? {
      return Err(err.value);
    }
    if version == 0 {
      version := SCHEMA_VERSION;
    }
    if version != SCHEMA_VERSION {
      return Err(WrongVersion(version));
    }
    if packages' == [] {
      return Err(NoPackages);
    }
    return Ok(Config(version, packages'));
  }

  // ----- only the trimmed, non-comment lines matter

  function Significant(lines: seq<string>): seq<string> {
    if lines == [] then []
    else (if IsBlank(TrimSpace(lines[0])) then [] else [TrimSpace(lines[0])]) + Significant(lines[1..])
  }

  lemma {:induction false} FeedSignificant(st: State, lines: seq<string>)
    ensures Feed(st, lines) == Feed(st, Significant(lines))
    decreases |lines|
  {
    hide TrimSpace, IsDash, DashLine, FieldLine, TopLine;
    if lines != [] {
      var t := TrimSpace(lines[0]);
      var r := Step(st, t);
      if IsBlank(t) {
        assert Significant(lines) == Significant(lines[1..]);
        FeedSignificant(st, lines[1..]);
      } else {
        var s := Significant(lines);
        assert s[0] == t && s[1..] == Significant(lines[1..]);
        assert TrimSpace(s[0]) == t by {
          TrimTrimmed(t);
        }
        if r.Ok? {
          FeedSignificant(r.value, lines[1..]);
        }
      }
    }
  }

  /** Indentation, trailing space, blank lines and comment lines carry no meaning: files
      with the same significant lines load to the same result, errors included. */
  lemma LayoutIsIrrelevant(a: seq<string>, b: seq<string>)
    requires Significant(a) == Significant(b)
    ensures Load(a) == Load(b)
  {
    hide Feed, Significant, Finish;
    FeedSignificant(START, a);
    FeedSignificant(START, b);
  }

  /** White space only, or '#' behind white space. */
  ghost predicate Comment(line: string) {
    || AllSpace(line)
    || exists i :: 0 <= i < |line| && line[i] == '#' && AllSpace(line[..i])
  }

  lemma CommentIsBlank(line: string)
    requires Comment(line)
    ensures IsBlank(TrimSpace(line))
  {
    TrimmedAwayIff(line);
    if !AllSpace(line) {
      var i :| 0 <= i < |line| && line[i] == '#' && AllSpace(line[..i]);
      TrimLeftPadding(line[..i], line[i..]);
      assert line[..i] + line[i..] == line;
      assert TrimLeft(line)[0] == '#';
    }
  }

  /** In particular a comment or blank line may be inserted anywhere. */
  lemma CommentAnywhere(a: seq<string>, comment: string, b: seq<string>)
    requires Comment(comment)
    ensures Load(a + [comment] + b) == Load(a + b)
  {
    CommentIsBlank(comment);
    hide Load, TrimSpace, Comment;
    SignificantAppend(a + [comment], b);
    SignificantAppend(a, [comment]);
    SignificantAppend(a, b);
    assert [comment][1..] == [];
    assert Significant([comment]) == [];
    LayoutIsIrrelevant(a + [comment] + b, a + b);
  }

  lemma {:induction false} SignificantAppend(a: seq<string>, b: seq<string>)
    ensures Significant(a + b) == Significant(a) + Significant(b)
    decreases |a|
  {
    hide TrimSpace, IsBlank;
    if a == [] {
      assert a + b == b;
    } else {
      assert (a + b)[0] == a[0] && (a + b)[1..] == a[1..] + b;
      SignificantAppend(a[1..], b);
    }
  }

  // ----- what a loaded file can contain

  /** An allowlist entry the grammar can express: something trimmed that is not read as the
      start of a sibling rule, that is, nothing but "external" stands before a colon. */
  predicate ValidItem(e: string) {
    && e != "" && Trimmed(e)
    && forall i :: 0 <= i < |e| && e[i] == ':' && ':' !in e[..i] ==> TrimSpace(e[..i]) == "external"
  }

  lemma FirstIsIndex(e: string, i: int)
    requires 0 <= i < |e| && e[i] == ':' && ':' !in e[..i]
    ensures IndexOf(e, ':') == i
  {
    IndexOfSplit(e[..i], ':', e[i + 1..]);
    assert e == e[..i] + [':'] + e[i + 1..];
  }

  lemma ItemIff(e: string)
    ensures ValidItem(e) <==> e != "" && Trimmed(e) && (SplitKV(e).Some? ==> IsListField(SplitKV(e).value.0))
  {
    hide TrimSpace;
    var n := IndexOf(e, ':');
    forall i | 0 <= i < |e| && e[i] == ':' && ':' !in e[..i] ensures i == n {
      FirstIsIndex(e, i);
    }
  }

  predicate ValidItems(es: seq<string>) { forall k :: 0 <= k < |es| ==> ValidItem(es[k]) }

  predicate ValidRule(r: Rule) {
    && r.path != "" && Trimmed(r.path)
    && r.mode in {"internal", "stdlib", "external"}
    && (r.mode == "external" ==> r.external != [])
    && ValidItems(r.external)
  }

  lemma ValidRuleIff(r: Rule)
    ensures ValidRule(r) <==> ValidateRule(r).None? && Trimmed(r.path) && ValidItems(r.external)
  {
    hide Trimmed, ValidItems;
  }

  predicate ValidRules(rs: seq<Rule>) {
    && rs != []
    && (forall k :: 0 <= k < |rs| ==> ValidRule(rs[k]))
    && (forall j, k :: 0 <= j < k < |rs| ==> rs[j].path != rs[k].path)
  }

  predicate OpenRule(r: Rule) {
    Trimmed(r.path) && ValidItems(r.external) && (r.listKey == "" || r.listKey == "external")
  }

  ghost predicate StateOk(st: State) {
    && (st.packages != [] ==> ValidRules(st.packages))
    && st.seen == (set k | 0 <= k < |st.packages| :: st.packages[k].path)
    && (st.cur.Some? ==> OpenRule(st.cur.value))
  }

  lemma FlushOk(st: State)
    requires StateOk(st) && Flush(st).Ok?
    ensures StateOk(Flush(st).value) && Flush(st).value.cur.None?
  {
    hide ValidateRule, ValidItems, Trimmed;
    if st.cur.Some? {
      var r := st.cur.value;
      var ps := st.packages + [r];
      assert forall k :: 0 <= k < |st.packages| ==> st.packages[k].path in st.seen;
      ValidRuleIff(r);
      assert forall k :: 0 <= k < |ps| ==> k == |st.packages| || ps[k] == st.packages[k];
      var seen' := set k | 0 <= k < |ps| :: ps[k].path;
      forall p | p in seen' ensures p in st.seen + {r.path} {}
      forall p | p in st.seen + {r.path} ensures p in seen' {
        if p == r.path {
          assert ps[|st.packages|].path == p;
        } else {
          var k :| 0 <= k < |st.packages| && st.packages[k].path == p;
          assert ps[k].path == p;
        }
      }
      assert seen' == st.seen + {r.path};
    }
  }

  lemma SplitKVTrimmed(s: string)
    ensures SplitKV(s).Some? ==> Trimmed(SplitKV(s).value.1)
  {
  }

  lemma StepOk(st: State, line: string)
    requires StateOk(st) && Step(st, line).Ok?
    ensures StateOk(Step(st, line).value)
  {
    hide TrimSpace, SplitKV, ValidateRule, Trimmed, ScanInt, ValidRules, IsBlank;
    if !IsBlank(line) {
      if IsDash(line) {
        var rest := TrimSpace(line[2..]);
        SplitKVTrimmed(rest);
        if OpensSibling(st.cur, rest) {
          FlushOk(st);
          EmptyTrimmed();
        } else {
          ItemIff(rest);
        }
      } else {
        SplitKVTrimmed(line);
      }
    }
  }

  lemma EmptyTrimmed()
    ensures Trimmed("") && TrimSpace("") == ""
  {
  }

  lemma {:induction false} FeedOk(st: State, lines: seq<string>)
    requires StateOk(st) && Feed(st, lines).Ok?
    ensures StateOk(Feed(st, lines).value)
    decreases |lines|
  {
    hide TrimSpace, Step, StateOk;
    if lines != [] {
      StepOk(st, TrimSpace(lines[0]));
      FeedOk(Step(st, TrimSpace(lines[0])).value, lines[1..]);
    }
  }

  /** Every file that loads declares version 2 and yields a non-empty list of valid
      rules with pairwise distinct paths. */
  lemma LoadIsSound(lines: seq<string>)
    requires Load(lines).Ok?
    ensures Load(lines).value.schemaVersion == 2
    ensures ValidRules(Load(lines).value.packages)
  {
    hide Feed, Flush, ValidRules;
    FeedOk(START, lines);
    FlushOk(Feed(START, lines).value);
  }

  // ----- the printer

  function Field(k: string, v: string): string { k + ": " + v }

  function PrintItems(es: seq<string>): seq<string> {
    if es == [] then [] else ["      - " + es[0]] + PrintItems(es[1..])
  }

  function PrintRule(r: Rule): seq<string> {
    ["  " + ("- " + Field("path", r.path)), "    " + Field("mode", r.mode)]
    + (if r.external == [] then [] else ["    external:"] + PrintItems(r.external))
  }

  function PrintRules(rs: seq<Rule>): seq<string> {
    if rs == [] then [] else PrintRule(rs[0]) + PrintRules(rs[1..])
  }

  function Print(rs: seq<Rule>): seq<string> {
    [Field("schema_version", "2"), "packages:"] + PrintRules(rs)
  }

  // ----- printing one rule and reading it back

  /** A field behind any indentation. */
  lemma FieldText(pad: string, k: string, v: string)
    requires AllSpace(pad) && Trimmed(k) && Trimmed(v) && k != "" && v != "" && ':' !in k
    ensures TrimSpace(pad + Field(k, v)) == Field(k, v)
    ensures Trimmed(Field(k, v))
    ensures SplitKV(Field(k, v)) == Some((k, v))
  {
    hide TrimSpace, SplitKV, IsSpace;
    assert Trimmed(Field(k, v));
    TrimPadded(pad, Field(k, v));
    KeyValue(k, v);
  }

  lemma KeyValue(k: string, v: string)
    requires Trimmed(k) && Trimmed(v) && ':' !in k
    ensures SplitKV(Field(k, v)) == Some((k, v))
  {
    hide TrimSpace, IndexOf;
    var s := Field(k, v);
    assert s == k + [':'] + (" " + v);
    IndexOfSplit(k, ':', " " + v);
    assert s[..|k|] == k && s[|k| + 1..] == " " + v;
    TrimTrimmed(k);
    TrimPadded(" ", v);
  }

  lemma PathLine(path: string)
    requires path != "" && Trimmed(path)
    ensures var t := "- " + Field("path", path);
            TrimSpace("  " + t) == t && !IsBlank(t) && IsDash(t) && TrimSpace(t[2..]) == Field("path", path)
    ensures SplitKV(Field("path", path)) == Some(("path", path))
  {
    hide TrimSpace, SplitKV;
    var f := Field("path", path);
    FieldText("", "path", path);
    assert Trimmed("- " + f);
    TrimPadded("  ", "- " + f);
    assert ("- " + f)[2..] == f;
    TrimTrimmed(f);
  }

  lemma ModeLine(mode: string)
    requires mode != "" && Trimmed(mode)
    ensures TrimSpace("    " + Field("mode", mode)) == Field("mode", mode)
    ensures !IsBlank(Field("mode", mode)) && !IsDash(Field("mode", mode))
    ensures SplitKV(Field("mode", mode)) == Some(("mode", mode))
  {
    hide TrimSpace, SplitKV;
    FieldText("    ", "mode", mode);
    assert Field("mode", mode)[0] == 'm';
  }

  lemma ExternalLine()
    ensures TrimSpace("    external:") == "external:"
    ensures !IsBlank("external:") && !IsDash("external:")
    ensures SplitKV("external:") == Some(("external", ""))
  {
    hide TrimSpace, IndexOf;
    assert "    external:" == "    " + "external:";
    assert Trimmed("external:");
    TrimPadded("    ", "external:");
    assert "external:" == "external" + [':'] + "";
    IndexOfSplit("external", ':', "");
    assert "external:"[..8] == "external" && "external:"[9..] == "";
    TrimTrimmed("external");
    EmptyTrimmed();
  }

  lemma ItemLine(e: string)
    requires e != "" && Trimmed(e)
    ensures TrimSpace("      - " + e) == "- " + e
    ensures !IsBlank("- " + e) && IsDash("- " + e) && TrimSpace(("- " + e)[2..]) == e
  {
    assert "      - " + e == "      " + ("- " + e);
    TrimPadded("      ", "- " + e);
    assert ("- " + e)[2..] == e;
    TrimTrimmed(e);
  }

  lemma FeedOne(st: State, line: string, rest: seq<string>)
    ensures var r := Step(st, TrimSpace(line));
            Feed(st, [line] + rest) == if r.Err? then r else Feed(r.value, rest)
  {
    assert ([line] + rest)[1..] == rest;
  }

  /** `st` after one more entry of the open list. */
  function Entered(st: State, e: string): State
    requires st.cur.Some?
  {
    st.(cur := Some(st.cur.value.(external := st.cur.value.external + [e])))
  }

  lemma FeedItem(st: State, e: string, rest: seq<string>)
    requires st.cur.Some? && st.cur.value.listKey == "external" && ValidItem(e)
    ensures Feed(st, ["      - " + e] + rest) == Feed(Entered(st, e), rest)
  {
    hide Feed, TrimSpace, IsBlank, IsDash, SplitKV;
    ItemLine(e);
    ItemIff(e);
    assert Step(st, "- " + e) == Ok(Entered(st, e));
    FeedOne(st, "      - " + e, rest);
  }

  lemma {:induction false} FeedItems(st: State, es: seq<string>, rest: seq<string>)
    requires st.cur.Some? && st.cur.value.listKey == "external" && ValidItems(es)
    ensures Feed(st, PrintItems(es) + rest)
         == Feed(st.(cur := Some(st.cur.value.(external := st.cur.value.external + es))), rest)
    decreases |es|
  {
    hide Feed, ValidItem;
    if es == [] {
      assert PrintItems(es) + rest == rest;
      assert st.cur.value.external + es == st.cur.value.external;
    } else {
      FeedItem(st, es[0], PrintItems(es[1..]) + rest);
      assert PrintItems(es) + rest == ["      - " + es[0]] + (PrintItems(es[1..]) + rest);
      FeedItems(Entered(st, es[0]), es[1..], rest);
      assert st.cur.value.external + [es[0]] + es[1..] == st.cur.value.external + es;
    }
  }

  /** A printed rule, fed where a rule may start, closes the previous rule and leaves
      itself open. */
  lemma FeedRule(st: State, r: Rule, rest: seq<string>)
    requires (st.cur.None? || OpenRule(st.cur.value)) && Flush(st).Ok? && ValidRule(r)
    ensures Feed(st, PrintRule(r) + rest) == Feed(Flush(st).value.(cur := Some(Tidy(r))), rest)
  {
    hide Feed, TrimSpace, IsBlank, IsDash, SplitKV, Trimmed, Flush, PrintItems, ValidItems;
    assert Trimmed("internal") && Trimmed("stdlib") && Trimmed("external") by { ModesTrimmed(); }
    PathLine(r.path);
    ModeLine(r.mode);
    ExternalLine();
    var s0 := Flush(st).value;
    var s1 := s0.(cur := Some(Rule(r.path, "", [], "")));
    var s2 := s0.(cur := Some(Rule(r.path, r.mode, [], "")));
    var s3 := s0.(cur := Some(Rule(r.path, r.mode, [], "external")));
    var tail := (if r.external == [] then [] else ["    external:"] + PrintItems(r.external)) + rest;
    assert Step(st, "- " + Field("path", r.path)) == Ok(s1);
    assert Step(s1, Field("mode", r.mode)) == Ok(s2);
    FeedOne(st, "  " + ("- " + Field("path", r.path)), ["    " + Field("mode", r.mode)] + tail);
    FeedOne(s1, "    " + Field("mode", r.mode), tail);
    assert PrintRule(r) + rest == ["  " + ("- " + Field("path", r.path))] + (["    " + Field("mode", r.mode)] + tail);
    if r.external == [] {
      assert tail == rest;
    } else {
      assert Step(s2, "external:") == Ok(s3);
      FeedOne(s2, "    external:", PrintItems(r.external) + rest);
      assert tail == ["    external:"] + (PrintItems(r.external) + rest);
      FeedItems(s3, r.external, rest);
      assert [] + r.external == r.external;
    }
  }

  lemma ModesTrimmed()
    ensures Trimmed("internal") && Trimmed("stdlib") && Trimmed("external")
  {
  }

  /** The list key the parser leaves behind is determined by the printed layout. */
  function Tidy(r: Rule): Rule {
    r.(listKey := if r.external == [] then "" else "external")
  }

  function TidyAll(rs: seq<Rule>): (t: seq<Rule>)
    ensures |t| == |rs| && forall k :: 0 <= k < |rs| ==> t[k] == Tidy(rs[k])
  {
    seq(|rs|, k requires 0 <= k < |rs| => Tidy(rs[k]))
  }

  /** The open rule, if any, can be closed. */
  predicate Ready(st: State) {
    st.cur.None? || (OpenRule(st.cur.value) && ValidateRule(st.cur.value).None? && st.cur.value.path !in st.seen)
  }

  /** Valid rules with paths of their own, none of them in the state. */
  ghost predicate Fits(st: State, rs: seq<Rule>) {
    && (forall k :: 0 <= k < |rs| ==> ValidRule(rs[k]))
    && (forall k :: 0 <= k < |rs| ==> rs[k].path !in st.seen && (st.cur.Some? ==> rs[k].path != st.cur.value.path))
    && (forall j, k :: 0 <= j < k < |rs| ==> rs[j].path != rs[k].path)
  }

  function Closed(st: State): seq<Rule> { st.packages + if st.cur.Some? then [st.cur.value] else [] }

  lemma FlushReady(st: State)
    requires Ready(st)
    ensures st.cur.None? || OpenRule(st.cur.value)
    ensures Flush(st).Ok? && Flush(st).value.version == st.version && Flush(st).value.packages == Closed(st)
    ensures Flush(st).value.seen == st.seen + if st.cur.Some? then {st.cur.value.path} else {}
  {
    hide ValidateRule, OpenRule;
  }

  lemma NextReady(st: State, rs: seq<Rule>)
    requires Ready(st) && Fits(st, rs) && rs != []
    ensures ValidRule(rs[0]) && Flush(st).Ok?
    ensures var next := Flush(st).value.(cur := Some(Tidy(rs[0])));
            Ready(next) && Fits(next, rs[1..]) && Closed(next) == Closed(st) + [Tidy(rs[0])]
  {
    FlushReady(st);
    TidyValid(rs[0]);
    hide Flush, ValidRule, OpenRule, ValidateRule;
  }

  lemma {:induction false} FeedRules(st: State, rs: seq<Rule>)
    requires Ready(st) && Fits(st, rs)
    ensures var r := Feed(st, PrintRules(rs));
            && r.Ok? && Flush(r.value).Ok?
            && Flush(r.value).value.version == st.version
            && Flush(r.value).value.packages == Closed(st) + TidyAll(rs)
    decreases |rs|
  {
    hide PrintRule, Step, Ready, Fits, Flush, ValidRule, OpenRule, Closed, Tidy;
    FlushReady(st);
    if rs == [] {
      assert Closed(st) + TidyAll(rs) == Closed(st);
    } else {
      hide Feed;
      NextReady(st, rs);
      var next := Flush(st).value.(cur := Some(Tidy(rs[0])));
      FeedRule(st, rs[0], PrintRules(rs[1..]));
      FeedRules(next, rs[1..]);
      assert Closed(st) + TidyAll(rs) == Closed(next) + TidyAll(rs[1..]);
    }
  }

  lemma TidyValid(r: Rule)
    requires ValidRule(r)
    ensures OpenRule(Tidy(r)) && ValidateRule(Tidy(r)).None?
  {
  }

  lemma VersionText()
    ensures ScanInt("2") == Some(2)
  {
    assert "2"[1..] == "" && "2"[..1] == "2" && "2"[..0] == "";
    assert DigitRun("2") == 1;
  }

  lemma HeaderWith(v: string, rest: seq<string>)
    requires v != "" && Trimmed(v)
    ensures Feed(START, [Field("schema_version", v), "packages:"] + rest)
         == match ScanInt(v)
            case None => Err(NotAnInt(v))
            case Some(n) => Feed(START.(version := n), rest)
  {
    VersionLine(START, v);
    if ScanInt(v).Some? {
      PackagesStep(START.(version := ScanInt(v).value));
    }
    hide *;
    FeedTwo(START, Field("schema_version", v), "packages:", rest);
  }

  lemma FeedTwo(st: State, a: string, b: string, rest: seq<string>)
    ensures var r := Step(st, TrimSpace(a));
            Feed(st, [a, b] + rest) ==
              if r.Err? then r
              else var q := Step(r.value, TrimSpace(b)); if q.Err? then q else Feed(q.value, rest)
  {
    hide *;
    FeedOne(st, a, [b] + rest);
    assert [a, b] + rest == [a] + ([b] + rest);
    var r := Step(st, TrimSpace(a));
    if r.Ok? {
      FeedOne(r.value, b, rest);
    }
  }

  lemma PackagesStep(st: State)
    requires st.cur.None?
    ensures Step(st, TrimSpace("packages:")) == Ok(st)
  {
    var p := "packages:";
    assert Trimmed(p) && !IsBlank(p) && !IsDash(p);
    TrimTrimmed(p);
    hide TrimSpace;
  }

  lemma VersionLine(st: State, v: string)
    requires st.cur.None? && v != "" && Trimmed(v)
    ensures Step(st, TrimSpace(Field("schema_version", v)))
         == match ScanInt(v)
            case None => Err(NotAnInt(v))
            case Some(n) => Ok(st.(version := n))
  {
    hide ScanInt, SplitKV, TrimSpace;
    var line := Field("schema_version", v);
    assert "schema_version"[0] == 's' && line[0] == 's';
    FieldText("", "schema_version", v);
    assert "" + line == line;
    hide Trimmed, IsSpace;
    assert !IsDash(line) && !IsBlank(line) && !("packages:" <= line);
  }

  lemma Header(rest: seq<string>)
    ensures Feed(START, [Field("schema_version", "2"), "packages:"] + rest) == Feed(START.(version := 2), rest)
  {
    VersionText();
    HeaderWith("2", rest);
  }

  lemma LoadPrinted(rs: seq<Rule>)
    requires ValidRules(rs)
    ensures Load(Print(rs)) == Ok(Config(2, TidyAll(rs)))
  {
    hide Feed, PrintRules, ValidRule, Flush;
    Header(PrintRules(rs));
    FeedRules(START.(version := 2), rs);
    assert Closed(START.(version := 2)) + TidyAll(rs) == TidyAll(rs);
  }

  // ----- whole files

  const NEWLINE := '\n'

  predicate OneLine(s: string) { NEWLINE !in s }

  function DropCR(s: string): string { if s != "" && s[|s| - 1] == '\r' then s[..|s| - 1] else s }

  /** The lines a bufio.Scanner delivers. */
  function Lines(text: string): seq<string> {
    if text == "" then []
    else
      var i := IndexOf(text, NEWLINE);
      if i < 0 then [DropCR(text)] else [DropCR(text[..i])] + Lines(text[i + 1..])
  }

  function Unlines(lines: seq<string>): string {
    if lines == [] then "" else lines[0] + [NEWLINE] + Unlines(lines[1..])
  }

  function LoadText(text: string): Result<Config, Error> { Load(Lines(text)) }

  function PrintText(rs: seq<Rule>): string { Unlines(Print(rs)) }

  /** The scanner gives the line back. */
  predicate Survives(line: string) { OneLine(line) && (line != "" ==> line[|line| - 1] != '\r') }

  lemma FirstLine(a: string, rest: string)
    requires Survives(a)
    ensures Lines(a + [NEWLINE] + rest) == [a] + Lines(rest)
  {
    var text := a + [NEWLINE] + rest;
    IndexOfSplit(a, NEWLINE, rest);
    hide IndexOf;
    assert text[..|a|] == a && text[|a| + 1..] == rest;
    assert DropCR(a) == a;
  }

  lemma {:induction false} LinesOfUnlines(lines: seq<string>)
    requires forall k :: 0 <= k < |lines| ==> Survives(lines[k])
    ensures Lines(Unlines(lines)) == lines
    decreases |lines|
  {
    if lines != [] {
      LinesOfUnlines(lines[1..]);
      FirstLine(lines[0], Unlines(lines[1..]));
      hide Lines, Survives;
      assert lines == [lines[0]] + lines[1..];
    }
  }

  lemma {:induction false} LinesAreLines(text: string)
    ensures forall k :: 0 <= k < |Lines(text)| ==> OneLine(Lines(text)[k])
    decreases |text|
  {
    if text != "" && IndexOf(text, NEWLINE) >= 0 {
      LinesAreLines(text[IndexOf(text, NEWLINE) + 1..]);
    }
  }

  /** A path and entries that fit on a line each. */
  predicate LineRule(r: Rule) { OneLine(r.path) && forall k :: 0 <= k < |r.external| ==> OneLine(r.external[k]) }

  predicate LineRules(rs: seq<Rule>) { forall k :: 0 <= k < |rs| ==> LineRule(rs[k]) }

  predicate LineState(st: State) { LineRules(st.packages) && (st.cur.Some? ==> LineRule(st.cur.value)) }

  lemma SplitIsLine(s: string)
    requires OneLine(s) && SplitKV(s).Some?
    ensures OneLine(SplitKV(s).value.1)
  {
    var i := IndexOf(s, ':');
    TrimKeeps(s[i + 1..], NEWLINE);
  }

  lemma FlushIsLine(st: State)
    requires LineState(st) && Flush(st).Ok?
    ensures LineState(Flush(st).value)
  {
    hide LineRule, ValidateRule;
  }

  lemma DashIsLine(st: State, rest: string)
    requires LineState(st) && OneLine(rest) && DashLine(st, rest).Ok?
    ensures LineState(DashLine(st, rest).value)
  {
    if SplitKV(rest).Some? {
      SplitIsLine(rest);
    }
    if Flush(st).Ok? {
      FlushIsLine(st);
    }
    assert OneLine("");
    hide SplitKV, Flush, OneLine;
  }

  lemma FieldIsLine(st: State, line: string)
    requires LineState(st) && st.cur.Some? && OneLine(line) && FieldLine(st, st.cur.value, line).Ok?
    ensures LineState(FieldLine(st, st.cur.value, line).value)
  {
    SplitIsLine(line);
    hide SplitKV, OneLine;
  }

  lemma StepIsLine(st: State, line: string)
    requires LineState(st) && OneLine(line) && Step(st, line).Ok?
    ensures LineState(Step(st, line).value)
  {
    hide TrimSpace, DashLine, FieldLine, ScanInt, SplitKV, LineRules, LineRule;
    if IsBlank(line) {
    } else if IsDash(line) {
      TrimKeeps(line[2..], NEWLINE);
      DashIsLine(st, TrimSpace(line[2..]));
    } else if st.cur.Some? {
      FieldIsLine(st, line);
    }
  }

  lemma {:induction false} FeedIsLine(st: State, lines: seq<string>)
    requires LineState(st) && Feed(st, lines).Ok? && forall k :: 0 <= k < |lines| ==> OneLine(lines[k])
    ensures LineState(Feed(st, lines).value)
    decreases |lines|
  {
    hide Step, LineState, TrimSpace, OneLine;
    if lines != [] {
      assert OneLine(lines[0]);
      TrimmedIsLine(lines[0]);
      StepIsLine(st, TrimSpace(lines[0]));
      FeedIsLine(Step(st, TrimSpace(lines[0])).value, lines[1..]);
    }
  }

  lemma TrimmedIsLine(s: string)
    requires OneLine(s)
    ensures OneLine(TrimSpace(s))
  {
    TrimKeeps(s, NEWLINE);
  }

  lemma LoadedIsLine(text: string)
    requires LoadText(text).Ok?
    ensures LineRules(LoadText(text).value.packages)
  {
    hide Feed, Lines, Flush, OneLine;
    LinesAreLines(text);
    FeedIsLine(START, Lines(text));
    FlushIsLine(Feed(START, Lines(text)).value);
  }

  lemma EndsPlain(pre: string, s: string)
    requires OneLine(pre) && OneLine(s) && Trimmed(s) && s != ""
    ensures Survives(pre + s)
  {
  }

  lemma {:induction false} ItemsSurvive(es: seq<string>)
    requires ValidItems(es) && forall k :: 0 <= k < |es| ==> OneLine(es[k])
    ensures forall k :: 0 <= k < |PrintItems(es)| ==> Survives(PrintItems(es)[k])
    decreases |es|
  {
    hide Survives, OneLine;
    if es != [] {
      assert ValidItem(es[0]) && OneLine("      - ") && OneLine(es[0]) by {
        ItemPrefix();
      }
      EndsPlain("      - ", es[0]);
      ItemsSurvive(es[1..]);
    }
  }

  lemma ItemPrefix()
    ensures OneLine("      - ")
  {
  }

  lemma RuleSurvives(r: Rule)
    requires ValidRule(r) && LineRule(r)
    ensures forall k :: 0 <= k < |PrintRule(r)| ==> Survives(PrintRule(r)[k])
  {
    HeadPrefixes(r.mode);
    assert "  " + ("- " + Field("path", r.path)) == "  - path: " + r.path;
    assert "    " + Field("mode", r.mode) == "    mode: " + r.mode;
    EndsPlain("  - path: ", r.path);
    EndsPlain("    mode: ", r.mode);
    ItemsSurvive(r.external);
    hide Survives, OneLine, PrintItems, ValidItems;
  }

  lemma HeadPrefixes(mode: string)
    requires KnownMode(mode)
    ensures OneLine("  - path: ") && OneLine("    mode: ") && Survives("    external:")
    ensures OneLine(mode) && Trimmed(mode)
  {
    ModesTrimmed();
  }

  lemma {:induction false} RulesSurvive(rs: seq<Rule>)
    requires (forall k :: 0 <= k < |rs| ==> ValidRule(rs[k])) && LineRules(rs)
    ensures forall k :: 0 <= k < |PrintRules(rs)| ==> Survives(PrintRules(rs)[k])
    decreases |rs|
  {
    hide PrintRule, Survives, ValidRule, LineRule;
    if rs != [] {
      RuleSurvives(rs[0]);
      RulesSurvive(rs[1..]);
    }
  }

  lemma PrintSurvives(rs: seq<Rule>)
    requires ValidRules(rs) && LineRules(rs)
    ensures Lines(PrintText(rs)) == Print(rs)
  {
    RulesSurvive(rs);
    assert Survives(Field("schema_version", "2")) && Survives("packages:") by {
      assert Field("schema_version", "2") == "schema_version: 2";
    }
    hide PrintRules, Survives, ValidRule, LineRule, Lines, Unlines, Field;
    LinesOfUnlines(Print(rs));
  }

  /** Loading the printed file gives back the rules exactly when they are valid: a non-empty
      list of rules with distinct trimmed paths, known modes, an allowlist where the mode
      needs one, and entries that do not read as a sibling rule; carry the list key the
      layout implies; and have no line break in a path or an entry. */
  lemma TextRoundTripIff(rs: seq<Rule>)
    ensures LoadText(PrintText(rs)) == Ok(Config(2, rs)) <==> ValidRules(rs) && rs == TidyAll(rs) && LineRules(rs)
  {
    hide Load, Print, ValidRule, Lines, LineRule, Unlines;
    if ValidRules(rs) && LineRules(rs) {
      PrintSurvives(rs);
      LoadPrinted(rs);
    }
    if LoadText(PrintText(rs)) == Ok(Config(2, rs)) {
      LoadIsSound(Lines(PrintText(rs)));
      LoadedIsLine(PrintText(rs));
      PrintSurvives(rs);
      LoadPrinted(rs);
    }
  }

  /** Rules as the checker uses them: all but the parser's own list key. */
  predicate SameRules(a: seq<Rule>, b: seq<Rule>) {
    |a| == |b| && forall k :: 0 <= k < |a| ==> a[k].(listKey := "") == b[k].(listKey := "")
  }

  /** Printing is a normal form for files: whatever loads, loads again from its printed form
      to the same paths, modes and allowlists. */
  lemma PrintedFileIsCanonical(text: string)
    requires LoadText(text).Ok?
    ensures var rs, again := LoadText(text).value.packages, LoadText(PrintText(LoadText(text).value.packages));
            again.Ok? && again.value.schemaVersion == 2 && SameRules(again.value.packages, rs)
  {
    hide Load, Print, ValidRule, Lines, LineRule, Unlines;
    LoadIsSound(Lines(text));
    LoadedIsLine(text);
    PrintSurvives(LoadText(text).value.packages);
    LoadPrinted(LoadText(text).value.packages);
  }

  /** An entry with a colon does not extend the list: it closes the open rule and starts a
      sibling with the entry as its first field. */
  lemma ColonEntryOpensRule(st: State, e: string)
    requires st.cur.Some? && Trimmed(e) && e != "" && SplitKV(e).Some? && !IsListField(SplitKV(e).value.0)
    ensures Step(st, "- " + e) ==
              match Flush(st)
              case Err(x) => Err(x)
              case Ok(closed) =>
                match AssignRuleField(Rule("", "", [], ""), SplitKV(e).value.0, SplitKV(e).value.1)
                case Err(x) => Err(x)
                case Ok(r) => Ok(closed.(cur := Some(r)))
  {
    ItemLine(e);
    hide IsDash, IsBlank, TrimSpace, SplitKV, Flush, AssignRuleField;
  }

  /** So a rule whose only entry has a colon loads as one without any. */
  lemma ColonEntryIsNotAnEntry()
    ensures var r := Rule("a", "external", ["b:c"], "external");
            Trimmed("b:c") && Load(Print([r])) == Err(NoExternal("a"))
  {
    ColonIsAt();
    assert Trimmed("a");
    hide *;
    ColonFile("a", "b:c");
  }

  lemma ColonFile(path: string, e: string)
    requires path != "" && Trimmed(path)
    requires Trimmed(e) && e != "" && SplitKV(e).Some? && !IsListField(SplitKV(e).value.0)
    ensures Load(Print([Rule(path, "external", [e], "external")])) == Err(NoExternal(path))
  {
    var r := Rule(path, "external", [e], "external");
    var st := State(2, [], {}, Some(Rule(path, "external", [], "external")));
    OneEntry(r, e);
    assert Flush(st) == Err(NoExternal(path));
    hide Feed, Step, PrintRule, PrintRules, SplitKV, TrimSpace, ValidateRule, IsListField, Flush, HeadLines, Trimmed;
    Header(PrintRules([r]));
    RuleHead(START.(version := 2), path, "external", ["      - " + e]);
    ColonFeed(st, e);
  }

  lemma OneEntry(r: Rule, e: string)
    requires r.external == [e]
    ensures PrintRules([r]) == HeadLines(r.path, r.mode) + ["      - " + e]
  {
    assert [r][1..] == [] && PrintRules([]) == [];
    assert PrintItems([e]) == ["      - " + e] + PrintItems([]);
    assert PrintRules([r]) == PrintRule(r);
  }

  lemma ColonFeed(st: State, e: string)
    requires st.cur.Some? && Flush(st).Err?
    requires Trimmed(e) && e != "" && SplitKV(e).Some? && !IsListField(SplitKV(e).value.0)
    ensures Feed(st, ["      - " + e]) == Err(Flush(st).error)
  {
    ItemLine(e);
    ColonEntryOpensRule(st, e);
    hide Feed, Step, SplitKV, TrimSpace, Flush;
    FeedOne(st, "      - " + e, []);
    assert ["      - " + e] + [] == ["      - " + e];
  }

  lemma ColonIsAt()
    ensures Trimmed("b:c") && SplitKV("b:c").Some? && !IsListField(SplitKV("b:c").value.0)
  {
    assert "b:c" == "b" + [':'] + "c";
    IndexOfSplit("b", ':', "c");
    assert "b:c"[..1] == "b";
    TrimTrimmed("b");
  }

  /** The lines of a printed rule before its entries. */
  function HeadLines(path: string, mode: string): seq<string> {
    ["  " + ("- " + Field("path", path)), "    " + Field("mode", mode), "    external:"]
  }

  lemma RuleHead(st: State, path: string, mode: string, rest: seq<string>)
    requires st.cur.None? && path != "" && Trimmed(path) && KnownMode(mode)
    ensures Feed(st, HeadLines(path, mode) + rest) == Feed(st.(cur := Some(Rule(path, mode, [], "external"))), rest)
  {
    hide Feed, TrimSpace, IsBlank, IsDash, SplitKV, Trimmed;
    assert Trimmed("internal") && Trimmed("stdlib") && Trimmed("external") by { ModesTrimmed(); }
    PathLine(path);
    ModeLine(mode);
    ExternalLine();
    var s1 := st.(cur := Some(Rule(path, "", [], "")));
    var s2 := st.(cur := Some(Rule(path, mode, [], "")));
    var tail := ["    external:"] + rest;
    assert Step(st, "- " + Field("path", path)) == Ok(s1);
    assert Step(s1, Field("mode", mode)) == Ok(s2);
    FeedOne(st, "  " + ("- " + Field("path", path)), ["    " + Field("mode", mode)] + tail);
    FeedOne(s1, "    " + Field("mode", mode), tail);
    FeedOne(s2, "    external:", rest);
    assert HeadLines(path, mode) + rest == ["  " + ("- " + Field("path", path))] + (["    " + Field("mode", mode)] + tail);
  }

  // ----- what single lines and numbers mean

  /** Closing the open rule: a path already seen, no path, no mode, a mode other than the
      three, and an external rule without entries are refused, in this order. */
  lemma FlushMeans(st: State, r: Rule)
    requires st.cur == Some(r)
    ensures Flush(st) ==
              if r.path in st.seen then Err(DuplicateRule(r.path))
              else if r.path == "" then Err(EmptyPath)
              else if r.mode == "" then Err(MissingMode(r.path))
              else if r.mode !in {"internal", "stdlib", "external"} then Err(UnknownMode(r.path, r.mode))
              else if r.mode == "external" && |r.external| == 0 then Err(NoExternal(r.path))
              else Ok(State(st.version, st.packages + [r], st.seen + {r.path}, None))
  {
  }

  lemma LineKeyValue(k: string, pad: string, v: string)
    requires Trimmed(k) && ':' !in k && AllSpace(pad) && Trimmed(v)
    ensures SplitKV(k + ":" + pad + v) == Some((k, v))
  {
    hide TrimSpace, IndexOf;
    var s := k + ":" + pad + v;
    assert s == k + [':'] + (pad + v);
    IndexOfSplit(k, ':', pad + v);
    assert s[..|k|] == k && s[|k| + 1..] == pad + v;
    TrimTrimmed(k);
    TrimPadded(pad, v);
  }

  /** The first field of a rule that a dash item opens. */
  function Opened(k: string, v: string): Result<Rule, Error> {
    if k == "path" then Ok(Rule(v, "", [], ""))
    else if k == "mode" then Ok(Rule("", v, [], ""))
    else if k != "external" then Err(UnknownField(k))
    else if v == "" then Ok(Rule("", "", [], ""))
    else Err(InlineExternal)
  }

  /** "key: value" inside a rule: the path and the mode may be set once, "external:" opens the
      list and takes no value, any other key is unknown. */
  lemma FieldLineMeans(st: State, r: Rule, k: string, pad: string, v: string)
    requires st.cur == Some(r) && (k != "" ==> k[0] != '#') && !("- " <= k)
    requires Trimmed(k) && ':' !in k && AllSpace(pad) && Trimmed(v)
    ensures Step(st, k + ":" + pad + v) ==
              if k == "path" then
                if r.path != "" then Err(DuplicatePath) else Ok(st.(cur := Some(Rule(v, r.mode, r.external, ""))))
              else if k == "mode" then
                if r.mode != "" then Err(DuplicateMode) else Ok(st.(cur := Some(Rule(r.path, v, r.external, ""))))
              else if k == "external" then
                if v != "" then Err(InlineExternal) else Ok(st.(cur := Some(Rule(r.path, r.mode, r.external, "external"))))
              else Err(UnknownField(k))
  {
    LineKeyValue(k, pad, v);
    NotDash(k, pad + v);
    assert k + ":" + pad + v == k + [':'] + (pad + v);
    hide SplitKV, TrimSpace, IsBlank, IsDash;
  }

  lemma NotDash(k: string, rest: string)
    requires (k != "" ==> k[0] != '#') && !("- " <= k)
    ensures !IsBlank(k + [':'] + rest) && !IsDash(k + [':'] + rest)
  {
    var s := k + [':'] + rest;
    assert s[0] == if k == "" then ':' else k[0];
    assert |k| == 1 ==> s[1] == ':';
    assert |k| >= 2 ==> k[..2] == s[..2];
  }

  /** "key: value" outside any rule: "packages:" is skipped, "schema_version" must start with
      a number, and any other key is unknown. */
  lemma TopLineMeans(st: State, k: string, pad: string, v: string)
    requires st.cur.None? && (k != "" ==> k[0] != '#') && !("- " <= k)
    requires Trimmed(k) && ':' !in k && AllSpace(pad) && Trimmed(v)
    ensures Step(st, k + ":" + pad + v) ==
              if k == "packages" then Ok(st)
              else if k != "schema_version" then Err(UnknownTopLevel(k))
              else match ScanInt(v)
                   case None => Err(NotAnInt(v))
                   case Some(n) => Ok(st.(version := n))
  {
    LineKeyValue(k, pad, v);
    NotDash(k, pad + v);
    PackagesLine(k, pad + v);
    assert k + ":" + pad + v == k + [':'] + (pad + v);
    hide SplitKV, TrimSpace, IsBlank, IsDash, ScanInt;
  }

  lemma PackagesLine(k: string, rest: string)
    requires ':' !in k
    ensures "packages:" <= k + [':'] + rest <==> k == "packages"
  {
    var s := k + [':'] + rest;
    IndexOfSplit(k, ':', rest);
    if "packages:" <= s {
      IndexOfSplit("packages", ':', s[9..]);
      assert s == "packages" + [':'] + s[9..];
      assert k == s[..8];
    }
    if k == "packages" {
      assert s[..9] == "packages:";
    }
  }

  /** A line without a colon is malformed, unless it is a dash item. */
  lemma NoColonLine(st: State, line: string)
    requires line != "" && line[0] != '#' && !("- " <= line) && ':' !in line
    ensures Step(st, line) == Err(if st.cur.Some? then MalformedLine(st.cur.value.path) else MalformedTopLevel)
  {
    assert SplitKV(line).None?;
    assert "packages:"[8] == ':';
    assert IsDash(line) ==> "- " <= line;
  }

  /** A dash item without a colon extends the open list; where none is open it closes the
      rule, and is malformed. */
  lemma PlainItemMeans(st: State, e: string)
    requires e != "" && Trimmed(e) && ':' !in e
    ensures Step(st, "- " + e) ==
              if st.cur.Some? && st.cur.value.listKey != ""
              then Ok(st.(cur := Some(st.cur.value.(external := st.cur.value.external + [e]))))
              else Err(if Flush(st).Err? then Flush(st).error else MalformedItem)
  {
    ItemLine(e);
    assert SplitKV(e).None?;
    hide SplitKV, TrimSpace, IsBlank, IsDash, Flush;
  }

  /** A dash item with a colon closes the open rule and starts a sibling with its field,
      except that "external" may stand before the colon of an entry of an open list. */
  lemma FieldItemMeans(st: State, k: string, pad: string, v: string)
    requires Trimmed(k) && ':' !in k && AllSpace(pad) && Trimmed(v)
    requires Trimmed(k + ":" + pad + v)
    ensures var e := k + ":" + pad + v;
            Step(st, "- " + e) ==
              if st.cur.Some? && st.cur.value.listKey != "" && k == "external"
              then Ok(st.(cur := Some(st.cur.value.(external := st.cur.value.external + [e]))))
              else if Flush(st).Err? then Err(Flush(st).error)
              else if Opened(k, v).Err? then Err(Opened(k, v).error)
              else Ok(Flush(st).value.(cur := Some(Opened(k, v).value)))
  {
    var e := k + ":" + pad + v;
    LineKeyValue(k, pad, v);
    assert e[|k|] == ':';
    hide *;
    DashStep(st, e);
    DashField(st, e, k, v);
  }

  lemma DashStep(st: State, e: string)
    requires e != "" && Trimmed(e)
    ensures Step(st, "- " + e) == DashLine(st, e)
  {
    ItemLine(e);
    hide TrimSpace, IsBlank, IsDash, DashLine, IsSpace, Trimmed;
  }

  lemma DashField(st: State, e: string, k: string, v: string)
    requires SplitKV(e) == Some((k, v)) && e != ""
    ensures DashLine(st, e) ==
              if st.cur.Some? && st.cur.value.listKey != "" && k == "external"
              then Ok(st.(cur := Some(st.cur.value.(external := st.cur.value.external + [e]))))
              else if Flush(st).Err? then Err(Flush(st).error)
              else if Opened(k, v).Err? then Err(Opened(k, v).error)
              else Ok(Flush(st).value.(cur := Some(Opened(k, v).value)))
  {
    hide SplitKV, Flush;
  }

  /** Decimal notation. */
  function Numeral(n: nat): (s: string)
    ensures s != "" && forall i :: 0 <= i < |s| ==> '0' <= s[i] <= '9'
  {
    (if n < 10 then "" else Numeral(n / 10)) + [('0' as int + n % 10) as char]
  }

  function Signed(n: int): string { if n < 0 then "-" + Numeral(-n) else Numeral(n) }

  lemma {:induction false} DigitsOfNumeral(n: nat)
    ensures Digits(Numeral(n)) == n
  {
    var s := Numeral(n);
    if n < 10 {
      assert s == [('0' as int + n) as char];
      assert s[..0] == "";
    } else {
      DigitsOfNumeral(n / 10);
      assert s[..|s| - 1] == Numeral(n / 10);
    }
  }

  lemma {:induction false} DigitRunIs(s: string, rest: string)
    requires (forall i :: 0 <= i < |s| ==> IsDigit(s[i])) && (rest != "" ==> !IsDigit(rest[0]))
    ensures DigitRun(s + rest) == |s|
  {
    if s != "" {
      assert (s + rest)[1..] == s[1..] + rest;
      DigitRunIs(s[1..], rest);
    } else {
      assert s + rest == rest;
    }
  }

  lemma ScanWith(sign: string, s: string, rest: string)
    requires sign in {"", "+", "-"} && s != "" && (forall i :: 0 <= i < |s| ==> IsDigit(s[i]))
    requires rest != "" ==> !IsDigit(rest[0])
    ensures ScanInt(sign + s + rest) ==
              var m := if sign == "-" then 0 - Digits(s) else Digits(s);
              if -0x8000_0000_0000_0000 <= m < 0x8000_0000_0000_0000 then Some(m) else None
  {
    hide *;
    var v, body := sign + s + rest, s + rest;
    DigitRunIs(s, rest);
    assert v == sign + body;
    SignOff(sign, body, s[0]);
    assert body[..|s|] == s;
    ScanUnfold(v, body, s);
  }

  lemma SignOff(sign: string, body: string, c: char)
    requires sign in {"", "+", "-"} && body != "" && body[0] == c && IsDigit(c)
    ensures var v := sign + body;
            (v[0] == '-' <==> sign == "-") && (v[0] == '+' <==> sign == "+") && body == (if sign != "" then v[1..] else v)
  {
  }

  lemma ScanUnfold(v: string, body: string, s: string)
    requires v != "" && body == (if v[0] == '-' || v[0] == '+' then v[1..] else v)
    requires s != "" && DigitRun(body) == |s| && body[..|s|] == s && (forall i :: 0 <= i < |s| ==> IsDigit(s[i]))
    ensures ScanInt(v) ==
              var m := if v[0] == '-' then 0 - Digits(s) else Digits(s);
              if -0x8000_0000_0000_0000 <= m < 0x8000_0000_0000_0000 then Some(m) else None
  {
    hide DigitRun, Digits, IsDigit;
  }

  /** A number is read up to the first character that is no digit, with at most one sign, and
      must fit 64 bits. */
  lemma ScanIntReads(n: nat, rest: string)
    requires rest != "" ==> !('0' <= rest[0] <= '9')
    ensures ScanInt(Numeral(n) + rest) == if n < 0x8000_0000_0000_0000 then Some(n) else None
    ensures ScanInt("+" + Numeral(n) + rest) == if n < 0x8000_0000_0000_0000 then Some(n) else None
    ensures ScanInt("-" + Numeral(n) + rest) == if n <= 0x8000_0000_0000_0000 then Some(0 - n) else None
  {
    var s := Numeral(n);
    DigitsOfNumeral(n);
    hide Digits, Numeral, ScanInt;
    ScanWith("", s, rest);
    ScanWith("+", s, rest);
    ScanWith("-", s, rest);
    assert "" + s + rest == s + rest;
  }

  /** Without a digit in front, behind at most one sign, there is no number. */
  lemma NoNumber(v: string)
    requires v != "" ==> !('0' <= v[0] <= '9')
    requires |v| >= 2 && v[0] in {'-', '+'} ==> !('0' <= v[1] <= '9')
    ensures ScanInt(v).None?
  {
  }

  lemma SignedText(n: int)
    ensures Signed(n) != "" && Trimmed(Signed(n))
    ensures ScanInt(Signed(n)) == if -0x8000_0000_0000_0000 <= n < 0x8000_0000_0000_0000 then Some(n) else None
  {
    hide *;
    if n < 0 {
      MinusText(-n);
      SignedIs(n, -n);
    } else {
      PlainText(n);
      SignedIs(n, n);
    }
  }

  lemma PlainText(m: nat)
    ensures Numeral(m) != "" && Trimmed(Numeral(m))
    ensures ScanInt(Numeral(m)) == if m < 0x8000_0000_0000_0000 then Some(m) else None
  {
    hide *;
    ScanIntReads(m, "");
    AppendNothing(Numeral(m));
    SignedTrimmed(Numeral(m));
  }

  lemma AppendNothing(s: string)
    ensures s + "" == s
  {
  }

  lemma MinusText(m: nat)
    ensures "-" + Numeral(m) != "" && Trimmed("-" + Numeral(m))
    ensures ScanInt("-" + Numeral(m)) == if m <= 0x8000_0000_0000_0000 then Some(0 - m) else None
  {
    hide *;
    ScanIntReads(m, "");
    AppendNothing("-" + Numeral(m));
    SignedTrimmed(Numeral(m));
  }

  lemma SignedIs(n: int, m: nat)
    requires m == if n < 0 then -n else n
    ensures Signed(n) == if n < 0 then "-" + Numeral(m) else Numeral(m)
  {
    hide Numeral;
  }

  lemma SignedTrimmed(s: string)
    requires s != "" && forall i :: 0 <= i < |s| ==> '0' <= s[i] <= '9'
    ensures Trimmed(s) && Trimmed("-" + s)
  {
    hide IsSpace;
    NoSpaces(s[0]);
    NoSpaces(s[|s| - 1]);
    NoSpaces('-');
    assert ("-" + s)[|s|] == s[|s| - 1];
  }

  lemma NoSpaces(c: char)
    requires '0' <= c <= '9' || c == '-'
    ensures !IsSpace(c)
  {
  }

  /** Of files that differ in the version alone, those with version 2 load, and those with
      version 0, which count as unversioned. */
  lemma VersionDecides(rs: seq<Rule>, n: int)
    requires ValidRules(rs)
    ensures Load(["schema_version: " + Signed(n), "packages:"] + PrintRules(rs)) ==
              if n == 2 || n == 0 then Ok(Config(2, TidyAll(rs)))
              else if -0x8000_0000_0000_0000 <= n < 0x8000_0000_0000_0000 then Err(WrongVersion(n))
              else Err(NotAnInt(Signed(n)))
  {
    hide ScanInt, Signed, PrintRules, Feed, Flush, ValidRule;
    SignedText(n);
    assert "schema_version: " + Signed(n) == Field("schema_version", Signed(n));
    HeaderWith(Signed(n), PrintRules(rs));
    if -0x8000_0000_0000_0000 <= n < 0x8000_0000_0000_0000 {
      var st := START.(version := n);
      FeedRules(st, rs);
      assert Closed(st) + TidyAll(rs) == TidyAll(rs);
    }
  }

  /** The scanner cuts at line feeds and takes one carriage return off before them; a last
      line needs no line feed. */
  lemma LinesMeans(a: string, rest: string)
    requires '\n' !in a
    ensures Lines(a + "\r\n" + rest) == [a] + Lines(rest)
    ensures (a != "" ==> a[|a| - 1] != '\r') ==> Lines(a + "\n" + rest) == [a] + Lines(rest)
    ensures Lines("") == []
    ensures a != "" && a[|a| - 1] != '\r' ==> Lines(a) == [a]
    ensures Lines(a + "\r") == [a]
  {
    CutLine(a + "\r", rest);
    assert a + "\r\n" + rest == a + "\r" + [NEWLINE] + rest;
    assert (a + "\r")[..|a|] == a;
    CutLine(a, rest);
    assert a + "\n" + rest == a + [NEWLINE] + rest;
  }

  lemma CutLine(b: string, rest: string)
    requires NEWLINE !in b
    ensures Lines(b + [NEWLINE] + rest) == [DropCR(b)] + Lines(rest)
    ensures b != "" ==> Lines(b) == [DropCR(b)]
  {
    var text := b + [NEWLINE] + rest;
    IndexOfSplit(b, NEWLINE, rest);
    assert text[..|b|] == b && text[|b| + 1..] == rest;
  }
}
