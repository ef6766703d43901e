/** The metadata JSON generator: calls that write values, members and brackets one after the
    other, with a bounded stack of nesting states. */
module JsonGen {
  import opened Words
  import opened JsonText

  const STACK_DEPTH := 128

  datatype Level = Level(kind: Kind, empty: bool)

  /** The text written so far and the nesting states, outermost first. */
  datatype State = State(text: string, stack: seq<Level>)

  /** A value written at once, or the opening or closing of a container. A scalar is written by
      the call for its type, a whole container by the raw call. */
  datatype Call =
    | Write(key: Option<string>, value: Json)
    | Open(key: Option<string>, kind: Kind)
    | Close(kind: Kind)

  const START := State("", [Level(Top, false)])

  /** A key is given exactly inside an object. */
  predicate KeyOk(kind: Kind, key: Option<string>) { key.Some? == (kind == InObject) }

  function KeyText(key: Option<string>): string { if key.Some? then Quoted(key.value) + ":" else "" }

  function Comma(l: Level): string { if l.kind == Top || l.empty then "" else "," }

  /** gen_word and its variants: false when the key is refused, after the comma is out. */
  function GenText(s: State, key: Option<string>, word: string): (State, bool)
    requires s.stack != []
  {
    var top := s.stack[|s.stack| - 1];
    if !KeyOk(top.kind, key) then (s.(text := s.text + Comma(top)), false)
    else (State(s.text + Comma(top) + KeyText(key) + word, s.stack[|s.stack| - 1 := top.(empty := false)]), true)
  }

  /** One call, and whether it returns success; the output itself never fails. */
  function Step(s: State, c: Call): (r: (State, bool))
    requires s.stack != [] && s.stack[0].kind == Top
    ensures r.0.stack != [] && r.0.stack[0].kind == Top
  {
    match c
    case Write(key, value) => GenText(s, key, Text(value))
    case Open(key, kind) =>
      var (s', ok) := GenText(s, key, Opening(kind));
      if !ok then (s', false)
      else if |s'.stack| >= STACK_DEPTH || kind == Top then (s', false)
      else (s'.(stack := s'.stack + [Level(kind, true)]), true)
    case Close(kind) =>
      var n := |s.stack|;
      if s.stack[n - 1].kind != kind || n == 1 then (s, false)
      else (State(s.text + Closing(kind), s.stack[..n - 1][n - 2 := s.stack[n - 2].(empty := false)]), true)
  }

  /** A run of successful calls; None as soon as one fails. */
  function Run(s: State, calls: seq<Call>): (r: Option<State>)
    requires s.stack != [] && s.stack[0].kind == Top
    ensures r.Some? ==> r.value.stack != [] && r.value.stack[0].kind == Top
  {
    if calls == [] then Some(s)
    else
      match Run(s, calls[..|calls| - 1])
      case None => None
      case Some(m) => var (s', ok) := Step(m, calls[|calls| - 1]); if ok then Some(s') else None
  }

  // The reference: calls build trees, without any text

  /** A container under construction: the key it will have, and the items it has. */
  datatype Frame = Frame(kind: Kind, key: string, items: seq<Item>)

  function KeyOf(key: Option<string>): string { if key.Some? then key.value else "" }

  function Put(fs: seq<Frame>, item: Item): (r: seq<Frame>)
    requires fs != []
    ensures |r| == |fs|
  {
    var n := |fs|;
    fs[n - 1 := fs[n - 1].(items := fs[n - 1].items + [item])]
  }

  function Build(fs: seq<Frame>, c: Call): (r: Option<seq<Frame>>)
    requires fs != [] && fs[0].kind == Top
    ensures r.Some? ==> r.value != [] && r.value[0].kind == Top
  {
    var top := fs[|fs| - 1];
    match c
    case Write(key, value) => if KeyOk(top.kind, key) then Some(Put(fs, Item(KeyOf(key), value))) else None
    case Open(key, kind) =>
      if KeyOk(top.kind, key) && |fs| < STACK_DEPTH && kind != Top
      then Some(fs + [Frame(kind, KeyOf(key), [])]) else None
    case Close(kind) =>
      if top.kind == kind && |fs| > 1 then Some(Put(fs[..|fs| - 1], Item(top.key, Node(kind, top.items)))) else None
  }

  const ROOT := [Frame(Top, "", [])]

  function BuildAll(fs: seq<Frame>, calls: seq<Call>): (r: Option<seq<Frame>>)
    requires fs != [] && fs[0].kind == Top
    ensures r.Some? ==> r.value != [] && r.value[0].kind == Top
  {
    if calls == [] then Some(fs)
    else
      match BuildAll(fs, calls[..|calls| - 1])
      case None => None
      case Some(m) => Build(m, calls[|calls| - 1])
  }

  /** The text of containers under construction, the innermost last. */
  function Render(fs: seq<Frame>): string
    requires fs != []
  {
    var n, top := |fs|, fs[|fs| - 1];
    if n == 1 then ItemsText(top.kind, top.items)
    else
      var parent := fs[n - 2];
      Render(fs[..n - 1]) + Lead(parent.kind, parent.items == [], top.key)
      + Opening(top.kind) + ItemsText(top.kind, top.items)
  }

  /** Levels carry the kinds of the frames, and only the innermost can still be empty. */
  ghost predicate LevelsMatch(stack: seq<Level>, fs: seq<Frame>) {
    && |stack| == |fs| > 0 && fs[0].kind == Top
    && forall k :: 0 <= k < |fs| ==>
         && stack[k].kind == fs[k].kind && (k > 0 ==> fs[k].kind != Top)
         && (fs[k].kind != Top ==> (stack[k].empty <==> k == |fs| - 1 && fs[k].items == []))
  }

  ghost predicate Matches(s: State, fs: seq<Frame>) {
    LevelsMatch(s.stack, fs) && s.text == Render(fs)
  }

  lemma CommaKeyIsLead(l: Level, key: Option<string>, first: bool)
    requires KeyOk(l.kind, key) && (l.kind != Top ==> l.empty == first)
    ensures Comma(l) + KeyText(key) == Lead(l.kind, first, KeyOf(key))
  {
  }

  lemma RenderPut(fs: seq<Frame>, item: Item)
    requires fs != []
    ensures var top := fs[|fs| - 1];
            Render(Put(fs, item)) == Render(fs) + (Lead(top.kind, top.items == [], item.key) + Text(item.value))
  {
    var n, top := |fs|, fs[|fs| - 1];
    var items := top.items + [item];
    assert items[..|items| - 1] == top.items;
    var old_, lead, text := ItemsText(top.kind, top.items), Lead(top.kind, top.items == [], item.key), Text(item.value);
    assert ItemsText(top.kind, items) == old_ + lead + text;
    Associative(old_, lead, text);
    if n > 1 {
      assert Put(fs, item)[..n - 1] == fs[..n - 1];
      var prefix := Render(fs[..n - 1]) + Lead(fs[n - 2].kind, fs[n - 2].items == [], top.key) + Opening(top.kind);
      Associative(prefix, old_, lead + text);
    }
  }

  /** The empty flag of the innermost level goes with the first item, or with the opening of a
      container. */
  lemma LevelsPut(stack: seq<Level>, fs: seq<Frame>, item: Item)
    requires LevelsMatch(stack, fs)
    ensures LevelsMatch(stack[|fs| - 1 := stack[|fs| - 1].(empty := false)], Put(fs, item))
  {
  }

  lemma LevelsOpen(stack: seq<Level>, fs: seq<Frame>, kind: Kind, key: string)
    requires LevelsMatch(stack, fs) && kind != Top
    ensures LevelsMatch(stack[|fs| - 1 := stack[|fs| - 1].(empty := false)] + [Level(kind, true)],
                        fs + [Frame(kind, key, [])])
  {
  }

  /** What a call prints before and with its word. */
  lemma GenTextIsLead(s: State, fs: seq<Frame>, key: Option<string>, word: string)
    requires LevelsMatch(s.stack, fs) && KeyOk(fs[|fs| - 1].kind, key)
    ensures var top := fs[|fs| - 1];
            GenText(s, key, word).0.text == s.text + Lead(top.kind, top.items == [], KeyOf(key)) + word
  {
    var n := |fs|;
    CommaKeyIsLead(s.stack[n - 1], key, fs[n - 1].items == []);
    Associative(s.text, Comma(s.stack[n - 1]), KeyText(key));
  }

  lemma WriteMatches(s: State, fs: seq<Frame>, key: Option<string>, value: Json)
    requires Matches(s, fs) && KeyOk(fs[|fs| - 1].kind, key)
    ensures Matches(GenText(s, key, Text(value)).0, Put(fs, Item(KeyOf(key), value)))
  {
    var n, top := |fs|, fs[|fs| - 1];
    RenderPut(fs, Item(KeyOf(key), value));
    LevelsPut(s.stack, fs, Item(KeyOf(key), value));
    GenTextIsLead(s, fs, key, Text(value));
    Associative(s.text, Lead(top.kind, top.items == [], KeyOf(key)), Text(value));
  }

  lemma RenderOpen(fs: seq<Frame>, kind: Kind, key: string)
    requires fs != []
    ensures var top := fs[|fs| - 1];
            Render(fs + [Frame(kind, key, [])]) == Render(fs) + Lead(top.kind, top.items == [], key) + Opening(kind)
  {
    var top := fs[|fs| - 1];
    assert (fs + [Frame(kind, key, [])])[..|fs|] == fs;
    var t := Render(fs) + Lead(top.kind, top.items == [], key) + Opening(kind);
    assert t + "" == t;
  }

  lemma OpenMatches(s: State, fs: seq<Frame>, key: Option<string>, kind: Kind)
    requires Matches(s, fs) && KeyOk(fs[|fs| - 1].kind, key) && kind != Top
    ensures var s' := GenText(s, key, Opening(kind)).0;
            Matches(s'.(stack := s'.stack + [Level(kind, true)]), fs + [Frame(kind, KeyOf(key), [])])
  {
    RenderOpen(fs, kind, KeyOf(key));
    LevelsOpen(s.stack, fs, kind, KeyOf(key));
    GenTextIsLead(s, fs, key, Opening(kind));
  }

  lemma CloseMatches(s: State, fs: seq<Frame>, kind: Kind)
    requires Matches(s, fs) && |fs| > 1 && s.stack[|fs| - 1].kind == kind
    ensures var n := |fs|;
            Matches(Step(s, Close(kind)).0, Put(fs[..n - 1], Item(fs[n - 1].key, Node(kind, fs[n - 1].items))))
  {
    var n, top := |fs|, fs[|fs| - 1];
    var outer, item := fs[..n - 1], Item(top.key, Node(kind, top.items));
    RenderPut(outer, item);
    var lead, body := Lead(fs[n - 2].kind, fs[n - 2].items == [], top.key), ItemsText(kind, top.items);
    RegroupClose(Render(outer), lead, Opening(kind), body, Closing(kind));
  }

  lemma RegroupClose(r: string, lead: string, o: string, body: string, c: string)
    ensures (r + lead + o + body) + c == r + (lead + (o + body + c))
  {
  }

  /** A call succeeds exactly when the tree can be built further, and then the text is that of
      the trees built. */
  lemma StepBuilds(s: State, fs: seq<Frame>, c: Call)
    requires Matches(s, fs)
    ensures Step(s, c).1 <==> Build(fs, c).Some?
    ensures Step(s, c).1 ==> Matches(Step(s, c).0, Build(fs, c).value)
  {
    var top := fs[|fs| - 1];
    match c
    case Write(key, value) =>
      if KeyOk(top.kind, key) {
        WriteMatches(s, fs, key, value);
      }
    case Open(key, kind) =>
      if KeyOk(top.kind, key) && |fs| < STACK_DEPTH && kind != Top {
        OpenMatches(s, fs, key, kind);
      }
    case Close(kind) =>
      if top.kind == kind && |fs| > 1 {
        CloseMatches(s, fs, kind);
      }
  }

  /** Over any sequence of calls the generator refines the building of trees. */
  lemma {:induction false} RunBuilds(s: State, fs: seq<Frame>, calls: seq<Call>)
    requires Matches(s, fs)
    ensures Run(s, calls).Some? <==> BuildAll(fs, calls).Some?
    ensures Run(s, calls).Some? ==> Matches(Run(s, calls).value, BuildAll(fs, calls).value)
  {
    if calls != [] {
      var init, c := calls[..|calls| - 1], calls[|calls| - 1];
      RunBuilds(s, fs, init);
      if Run(s, init).Some? {
        StepBuilds(Run(s, init).value, BuildAll(fs, init).value, c);
      }
    }
  }

  // What comes out can be read back

  ghost predicate ProperCall(c: Call) { c.Write? ==> Proper(c.value) }

  ghost predicate ProperFrame(fs: seq<Frame>, k: nat)
    requires k < |fs|
  {
    && ProperItems(fs[k].kind, fs[k].items)
    && (k > 0 ==> fs[k].kind != Top && (fs[k - 1].kind != InObject ==> fs[k].key == ""))
  }

  ghost predicate ProperFrames(fs: seq<Frame>) {
    forall k :: 0 <= k < |fs| ==> ProperFrame(fs, k)
  }

  lemma PutProper(fs: seq<Frame>, item: Item)
    requires fs != [] && ProperFrames(fs) && Proper(item.value) && (fs[|fs| - 1].kind != InObject ==> item.key == "")
    ensures ProperFrames(Put(fs, item))
  {
    forall k | 0 <= k < |fs| ensures ProperFrame(Put(fs, item), k) {
      assert ProperFrame(fs, k);
    }
  }

  lemma BuildKeepsProper(fs: seq<Frame>, c: Call)
    requires fs != [] && fs[0].kind == Top && ProperFrames(fs) && ProperCall(c) && Build(fs, c).Some?
    ensures ProperFrames(Build(fs, c).value)
  {
    var n, top := |fs|, fs[|fs| - 1];
    match c
    case Write(key, value) => PutProper(fs, Item(KeyOf(key), value));
    case Open(key, kind) =>
      forall k | 0 <= k < n + 1 ensures ProperFrame(Build(fs, c).value, k) {
        if k < n {
          assert ProperFrame(fs, k);
        }
      }
    case Close(kind) =>
      assert ProperFrame(fs, n - 1);
      var outer := fs[..n - 1];
      forall k | 0 <= k < n - 1 ensures ProperFrame(outer, k) {
        assert ProperFrame(fs, k);
      }
      PutProper(outer, Item(top.key, Node(kind, top.items)));
  }

  lemma {:induction false} BuildProper(calls: seq<Call>)
    requires forall k :: 0 <= k < |calls| ==> ProperCall(calls[k])
    ensures BuildAll(ROOT, calls).Some? ==> ProperFrames(BuildAll(ROOT, calls).value)
  {
    if calls != [] {
      var init, c := calls[..|calls| - 1], calls[|calls| - 1];
      BuildProper(init);
      if BuildAll(ROOT, calls).Some? {
        BuildKeepsProper(BuildAll(ROOT, init).value, c);
      }
    }
  }

  lemma OneItemText(item: Item)
    ensures ItemsText(Top, [item]) == Text(item.value)
  {
    assert [item][..0] == [];
    assert "" + "" + Text(item.value) == Text(item.value);
  }

  /** Whatever the calls, once every container is closed the text is the texts of the top-level
      values one after the other; a single value is read back as it was given. */
  lemma WellFormedOutput(calls: seq<Call>)
    requires forall k :: 0 <= k < |calls| ==> ProperCall(calls[k])
    requires Run(START, calls).Some? && |Run(START, calls).value.stack| == 1
    ensures BuildAll(ROOT, calls).Some?
    ensures var text, items := Run(START, calls).value.text, BuildAll(ROOT, calls).value[0].items;
            && ProperItems(Top, items) && text == ItemsText(Top, items)
            && (|items| == 1 ==> ReadValue(text) == Some((items[0].value, "")))
  {
    RunBuilds(START, ROOT, calls);
    BuildProper(calls);
    var text, items := Run(START, calls).value.text, BuildAll(ROOT, calls).value[0].items;
    assert ProperFrame(BuildAll(ROOT, calls).value, 0);
    if |items| == 1 {
      ValueBack(items[0].value, "");
      OneItemText(items[0]);
      assert items == [items[0]] && text + "" == text;
    }
  }

  // Emitting a given tree

  function KeyFor(kind: Kind, key: string): Option<string> { if kind == InObject then Some(key) else None }

  function TreeCalls(j: Json, key: Option<string>): seq<Call>
    decreases j
  {
    if !j.Node? then [Write(key, j)] else [Open(key, j.kind)] + ItemsCalls(j.kind, j.items) + [Close(j.kind)]
  }

  function ItemsCalls(kind: Kind, items: seq<Item>): seq<Call>
    decreases items
  {
    if items == [] then []
    else
      var last := items[|items| - 1];
      ItemsCalls(kind, items[..|items| - 1]) + TreeCalls(last.value, KeyFor(kind, last.key))
  }

  /** How deeply containers nest. */
  function Depth(j: Json): nat
    decreases j
  {
    if j.Node? then 1 + ItemsDepth(j.items) else 0
  }

  function ItemsDepth(items: seq<Item>): nat
    decreases items
  {
    if items == [] then 0
    else
      var d, e := ItemsDepth(items[..|items| - 1]), Depth(items[|items| - 1].value);
      if d >= e then d else e
  }

  function PutAll(fs: seq<Frame>, items: seq<Item>): seq<Frame>
    requires fs != []
  {
    var n := |fs|;
    fs[n - 1 := fs[n - 1].(items := fs[n - 1].items + items)]
  }

  lemma PutLast(fs: seq<Frame>, items: seq<Item>)
    requires fs != [] && items != []
    ensures Put(PutAll(fs, items[..|items| - 1]), items[|items| - 1]) == PutAll(fs, items)
  {
    var done, init, last := fs[|fs| - 1].items, items[..|items| - 1], items[|items| - 1];
    assert done + init + [last] == done + items;
  }

  lemma {:induction false} BuildAppend(fs: seq<Frame>, a: seq<Call>, b: seq<Call>)
    requires fs != [] && fs[0].kind == Top
    ensures BuildAll(fs, a + b) == match BuildAll(fs, a) case None => None case Some(m) => BuildAll(m, b)
  {
    if b == [] {
      assert a + b == a;
    } else {
      assert (a + b)[..|a + b| - 1] == a + b[..|b| - 1];
      BuildAppend(fs, a, b[..|b| - 1]);
    }
  }

  lemma BuildOne(fs: seq<Frame>, c: Call)
    requires fs != [] && fs[0].kind == Top
    ensures BuildAll(fs, [c]) == Build(fs, c)
  {
    assert [c][..0] == [];
  }

  /** The calls for a tree add exactly that tree, and fail exactly when it nests too deeply. */
  lemma {:induction false} TreeBuilds(fs: seq<Frame>, j: Json, key: Option<string>)
    requires fs != [] && fs[0].kind == Top && |fs| <= STACK_DEPTH
    requires Proper(j) && KeyOk(fs[|fs| - 1].kind, key)
    ensures BuildAll(fs, TreeCalls(j, key)) ==
            if |fs| + Depth(j) <= STACK_DEPTH then Some(Put(fs, Item(KeyOf(key), j))) else None
    decreases j
  {
    if !j.Node? {
      BuildOne(fs, Write(key, j));
    } else {
      var open, items, close := [Open(key, j.kind)], ItemsCalls(j.kind, j.items), [Close(j.kind)];
      BuildAppend(fs, open + items, close);
      BuildAppend(fs, open, items);
      BuildOne(fs, Open(key, j.kind));
      if |fs| < STACK_DEPTH {
        var fs' := fs + [Frame(j.kind, KeyOf(key), [])];
        ItemsBuild(fs', j.kind, j.items);
        if |fs| + Depth(j) <= STACK_DEPTH {
          BuildOne(PutAll(fs', j.items), Close(j.kind));
          assert PutAll(fs', j.items)[..|fs|] == fs;
          assert [] + j.items == j.items;
        }
      }
    }
  }

  lemma {:induction false} ItemsBuild(fs: seq<Frame>, kind: Kind, items: seq<Item>)
    requires fs != [] && fs[0].kind == Top && |fs| <= STACK_DEPTH && fs[|fs| - 1].kind == kind
    requires ProperItems(kind, items)
    ensures BuildAll(fs, ItemsCalls(kind, items)) ==
            if |fs| + ItemsDepth(items) <= STACK_DEPTH then Some(PutAll(fs, items)) else None
    decreases items
  {
    if items == [] {
      assert fs[|fs| - 1].items + items == fs[|fs| - 1].items;
      assert PutAll(fs, items) == fs;
    } else {
      var init, last := items[..|items| - 1], items[|items| - 1];
      ItemsBuild(fs, kind, init);
      var a, b := ItemsCalls(kind, init), TreeCalls(last.value, KeyFor(kind, last.key));
      assert ItemsCalls(kind, items) == a + b;
      BuildAppend(fs, a, b);
      if |fs| + ItemsDepth(init) <= STACK_DEPTH {
        TreeBuilds(PutAll(fs, init), last.value, KeyFor(kind, last.key));
        PutLast(fs, items);
      }
    }
  }

  /** Emitting any tree succeeds exactly when its nesting fits the stack, and what is then
      written is read back as that tree. */
  lemma EmitReadsBack(j: Json)
    requires Proper(j)
    ensures Run(START, TreeCalls(j, None)).Some? <==> Depth(j) < STACK_DEPTH
    ensures Depth(j) < STACK_DEPTH ==> ReadValue(Run(START, TreeCalls(j, None)).value.text) == Some((j, ""))
  {
    var calls := TreeCalls(j, None);
    RunBuilds(START, ROOT, calls);
    TreeBuilds(ROOT, j, None);
    if Depth(j) < STACK_DEPTH {
      var text := Run(START, calls).value.text;
      ValueBack(j, "");
      OneItemText(Item("", j));
      assert BuildAll(ROOT, calls).value == [Frame(Top, "", [Item("", j)])] by {
        assert [] + [Item("", j)] == [Item("", j)];
      }
      assert text + "" == text;
    }
  }

  /** A call that fails leaves the text as it was exactly when no comma was due and it did not
      fail for want of depth. */
  lemma FailureLeavesText(s: State, c: Call)
    requires s.stack != [] && s.stack[0].kind == Top && !Step(s, c).1 && (c.Open? ==> c.kind != Top)
    ensures var top := s.stack[|s.stack| - 1];
            Step(s, c).0.text == s.text <==>
              c.Close? || (Comma(top) == "" && !KeyOk(top.kind, c.key))
  {
    var top := s.stack[|s.stack| - 1];
    assert |Step(s, c).0.text| >= |s.text|;
    if Comma(top) == "" {
      assert s.text + Comma(top) == s.text;
    }
  }

  // The generator itself

  /** struct lttng_kernel_mj_gen_private with the text that its calls print. */
  class Generator {
    var text: string
    const states: array<Level>
    var index: nat

    ghost predicate Valid()
      reads this, states
    {
      states.Length == STACK_DEPTH && index < STACK_DEPTH && states[0].kind == Top
    }

    ghost function View(): State
      requires Valid()
      reads this, states
    {
      State(text, states[..index + 1])
    }

    constructor ()
      ensures Valid() && fresh(states) && View() == START
    {
      states := new Level[STACK_DEPTH](_ => Level(Top, false));
      text, index := "", 0;
    }

    /** gen_quoted_str: stretches without special characters are printed at once. */
    method QuotedStr(str: string)
      modifies this`text
      ensures text == old(text) + Quoted(str)
    {
      text := text + ['"'];
      var i, begin := 0, 0;
      while i < |str|
        invariant begin <= i <= |str|
        invariant text == old(text) + (['"'] + Escaped(str[..begin]))
        invariant Escaped(str[begin..i]) == str[begin..i]
      {
        if Escapes(str[i]) {
          EscapeStep(str, begin, i);
          text := text + str[begin..i];
          text := text + EscapedChar(str[i]);
          QuotedGrows(old(text), str, begin, i);
          begin := i + 1;
        } else {
          PlainStep(str, begin, i);
        }
        i := i + 1;
      }
      assert str[begin..i] == str[begin..];
      text := text + str[begin..];
      text := text + ['"'];
      QuotedEnds(old(text), str, begin);
    }

    method TryComma()
      requires Valid()
      modifies this`text
      ensures text == old(text) + Comma(states[index])
    {
      var state := states[index];
      if state.kind == Top {
        assert text == text + "";
        return;
      }
      if !state.empty {
        text := text + ",";
      } else {
        assert text == text + "";
      }
    }

    method TryKey(key: Option<string>) returns (ok: bool)
      requires Valid()
      modifies this`text
      ensures ok == KeyOk(states[index].kind, key)
      ensures text == if ok then old(text) + KeyText(key) else old(text)
    {
      if key.None? {
        assert text == text + "";
        return states[index].kind != InObject;
      }
      if states[index].kind != InObject {
        return false;
      }
      QuotedStr(key.value);
      text := text + ":";
      Associative(old(text), Quoted(key.value), ":");
      return true;
    }

    method GenWord(key: Option<string>, word: string) returns (ok: bool)
      requires Valid()
      modifies this`text, states
      ensures Valid() && (View(), ok) == GenText(old(View()), key, word)
    {
      TryComma();
      ok := TryKey(key);
      if ok {
        text := text + word;
        states[index] := states[index].(empty := false);
        assert states[..index + 1] == old(states[..index + 1])[index := states[index]];
      }
    }

    method GenOpen(key: Option<string>, kind: Kind) returns (ok: bool)
      requires Valid() && kind != Top
      modifies this, states
      ensures Valid() && (View(), ok) == Step(old(View()), Open(key, kind))
    {
      ok := GenWord(key, Opening(kind));
      if ok {
        if index >= STACK_DEPTH - 1 {
          return false;
        }
        index := index + 1;
        states[index] := Level(kind, true);
        assert states[..index + 1] == states[..index] + [Level(kind, true)];
      }
    }

    method GenClose(kind: Kind) returns (ok: bool)
      requires Valid() && kind != Top
      modifies this, states
      ensures Valid() && (View(), ok) == Step(old(View()), Close(kind))
    {
      if states[index].kind != kind {
        return false;
      }
      text := text + Closing(kind);
      index := index - 1;
      states[index] := states[index].(empty := false);
      assert states[..index + 1] == old(states[..index + 1])[..index + 1][index := states[index]];
      return true;
    }
  }

  lemma PlainStep(str: string, begin: nat, i: nat)
    requires begin <= i < |str| && Escaped(str[begin..i]) == str[begin..i] && !Escapes(str[i])
    ensures Escaped(str[begin..i + 1]) == str[begin..i + 1]
  {
    assert str[begin..i + 1] == str[begin..i] + [str[i]];
    EscapedAppend(str[begin..i], [str[i]]);
  }

  lemma EscapeStep(str: string, begin: nat, i: nat)
    requires begin <= i < |str| && Escaped(str[begin..i]) == str[begin..i] && Escapes(str[i])
    ensures Escaped(str[..i + 1]) == Escaped(str[..begin]) + str[begin..i] + EscapedChar(str[i])
  {
    EscapedOne(str[i]);
    assert str[..i + 1] == str[..i] + [str[i]];
    EscapedAppend(str[..i], [str[i]]);
    assert str[..i] == str[..begin] + str[begin..i];
    EscapedAppend(str[..begin], str[begin..i]);
  }

  lemma EscapedOne(c: char)
    ensures Escaped([c]) == EscapedChar(c)
  {
    assert EscapedChar(c) + [] == EscapedChar(c);
  }

  lemma QuotedGrows(t: string, str: string, begin: nat, i: nat)
    requires begin <= i < |str| && Escapes(str[i])
    requires Escaped(str[..i + 1]) == Escaped(str[..begin]) + str[begin..i] + EscapedChar(str[i])
    ensures t + (['"'] + Escaped(str[..begin])) + str[begin..i] + EscapedChar(str[i])
            == t + (['"'] + Escaped(str[..i + 1]))
  {
    Regrouped(t, ['"'], Escaped(str[..begin]), str[begin..i], EscapedChar(str[i]));
  }

  lemma QuotedEnds(t: string, str: string, begin: nat)
    requires begin <= |str| && Escaped(str[begin..]) == str[begin..]
    ensures t + (['"'] + Escaped(str[..begin])) + str[begin..] + ['"'] == t + Quoted(str)
  {
    assert str == str[..begin] + str[begin..];
    EscapedAppend(str[..begin], str[begin..]);
    Regrouped(t, ['"'], Escaped(str[..begin]), str[begin..], ['"']);
    Associative(['"'], Escaped(str), ['"']);
  }

  lemma Regrouped(t: string, q: string, a: string, b: string, c: string)
    ensures t + (q + a) + b + c == t + (q + (a + b + c))
  {
  }
}
