/** The entity builder of src/format.js: walks the tokenizer's block/inline
    token stream, appends to one flat text buffer and keeps an explicit stack
    of open spans, emitting an entity when a span closes.

    The pure functions (`Close`, `InlineStep`, `BlockStep`, `Convert`) are the
    specification; the class `Builder` and the methods `CloseEntity` and
    `MarkdownToEntities` are the step-by-step procedure, proved against it. */
module EntityBuilder {
  import opened Entities
  import opened Text

  /** The separator line a horizontal rule becomes: five box-drawing dashes. */
  const HrSeparator: string := "\U{2500}\U{2500}\U{2500}\U{2500}\U{2500}"

  /** Inline tokens of the tokenizer, one variant per kind the builder handles. */
  datatype InlineToken =
    | Text(content: string)
    | SoftBreak | HardBreak
    | StrongOpen | StrongClose
    | EmOpen | EmClose
    | SOpen | SClose | DelOpen | DelClose
    | LinkOpen(url: Option<string>) | LinkClose
    | CodeInline(content: string)
    | Image(alt: string)
    | OtherInline

  /** Block tokens; an `Inline` token carries its children (none when the
      tokenizer gave none). `info` is absent when it is not a string. */
  datatype BlockToken =
    | ParagraphOpen | ParagraphClose
    | HeadingOpen | HeadingClose
    | Inline(children: seq<InlineToken>)
    | BulletListOpen | OrderedListOpen
    | ListItemOpen | ListItemClose
    | Fence(content: string, info: Option<string>)
    | CodeBlock(content: string, info: Option<string>)
    | Hr
    | OtherBlock

  /** An open span: its kind, the buffer length when it opened, its extra data. */
  datatype StackEntry = StackEntry(kind: Kind, offset: int, extra: Extra)

  // ---------------------------------------------------------------------
  // closeEntity

  /** Index of the topmost stack entry of the given kind, if any. */
  function TopmostOf(stack: seq<StackEntry>, kind: Kind): (r: Option<nat>)
    ensures r.None? <==> forall j :: 0 <= j < |stack| ==> stack[j].kind != kind
    ensures r.Some? ==> r.value < |stack| && stack[r.value].kind == kind
    ensures r.Some? ==> forall j :: r.value < j < |stack| ==> stack[j].kind != kind
  {
    if stack == [] then None
    else if stack[|stack| - 1].kind == kind then Some(|stack| - 1)
    else TopmostOf(stack[..|stack| - 1], kind)
  }

  /** What closing a span of `kind` at `endOffset` does to the entity list
      and the stack. */
  function Close(entities: seq<Entity>, stack: seq<StackEntry>, kind: Kind, endOffset: int)
    : (seq<Entity>, seq<StackEntry>)
  {
    match TopmostOf(stack, kind)
    case None => (entities, stack)
    case Some(i) =>
      var entry := stack[i];
      var length := endOffset - entry.offset;
      var stack' := stack[..i] + stack[i + 1..];
      if length <= 0 then (entities, stack')
      else (entities + [Entity(kind, entry.offset, length, entry.extra)], stack')
  }

  /** With no open span of that kind, closing changes nothing. */
  lemma CloseWithoutOpen(entities: seq<Entity>, stack: seq<StackEntry>, kind: Kind, endOffset: int)
    requires forall j :: 0 <= j < |stack| ==> stack[j].kind != kind
    ensures Close(entities, stack, kind, endOffset) == (entities, stack)
  {}

  /** Closing removes exactly the topmost entry of that kind, keeping the
      others in order, and emits one entity, over that entry's span, iff the
      span is non-empty. */
  lemma CloseTopmost(entities: seq<Entity>, stack: seq<StackEntry>, kind: Kind, endOffset: int, i: nat)
    requires i < |stack| && stack[i].kind == kind
    requires forall j :: i < j < |stack| ==> stack[j].kind != kind
    ensures var (es, st) := Close(entities, stack, kind, endOffset);
      && st == stack[..i] + stack[i + 1..]
      && (endOffset - stack[i].offset > 0 ==>
            es == entities + [Entity(kind, stack[i].offset, endOffset - stack[i].offset, stack[i].extra)])
      && (endOffset - stack[i].offset <= 0 ==> es == entities)
  {
    assert TopmostOf(stack, kind).Some?;
  }

  /** closeEntity: searches the stack downwards for the innermost open span of
      `kind`, splices it out, and pushes the entity when its length is positive. */
  method CloseEntity(entities: seq<Entity>, stack: seq<StackEntry>, kind: Kind, endOffset: int)
    returns (entities': seq<Entity>, stack': seq<StackEntry>)
    ensures (entities', stack') == Close(entities, stack, kind, endOffset)
  {
    entities', stack' := entities, stack;
    var i := |stack| - 1;
    while i >= 0
      invariant -1 <= i < |stack|
      invariant forall j :: i < j < |stack| ==> stack[j].kind != kind
    {
      var entry := stack[i];
      if entry.kind != kind {
        i := i - 1;
        continue;
      }
      stack' := stack[..i] + stack[i + 1..];
      var length := endOffset - entry.offset;
      if length <= 0 {
        return;
      }
      entities' := entities + [Entity(kind, entry.offset, length, entry.extra)];
      return;
    }
  }

  // ---------------------------------------------------------------------
  // The builder's state and its pure step functions

  /** The builder's whole state: the text buffer, the entities emitted so
      far, the open-span stack and the list-item depth. */
  datatype State = State(text: string, entities: seq<Entity>, stack: seq<StackEntry>, depth: nat)

  const Initial := State("", [], [], 0)

  /** ensureLineStart: a non-empty buffer that does not end a line gets a newline. */
  function LineStart(text: string): string {
    if |text| == 0 then text
    else if !EndsWith(text, "\n") then text + "\n"
    else text
  }

  /** appendBlockGap: a non-empty buffer is brought to end in a blank line. */
  function BlockGap(text: string): string {
    if |text| == 0 || EndsWith(text, "\n\n") then text
    else (if !EndsWith(text, "\n") then text + "\n" else text) + "\n"
  }

  /** After ensureLineStart the buffer is empty or ends a line, and at most one
      newline was added; a buffer that already ends a line is left alone, so a
      second call adds nothing. */
  lemma LineStartShape(text: string)
    ensures var r := LineStart(text);
      (r == [] || EndsWith(r, "\n")) && text <= r && r[|text|..] in ["", "\n"]
      && (EndsWith(text, "\n") ==> r == text)
      && (|text| == 0 ==> r == text)
      && (|text| > 0 && !EndsWith(text, "\n") ==> r == text + "\n")
      && LineStart(r) == r
  {
    if |text| > 0 && !EndsWith(text, "\n") {
      EndsWithAppended(text, "\n");
      assert (text + "\n")[|text|..] == "\n";
    } else {
      assert text[|text|..] == "";
    }
  }

  /** After appendBlockGap the buffer is empty or ends in a blank line, only
      newlines were added (at most two), and a second call adds nothing. */
  lemma BlockGapShape(text: string)
    ensures var r := BlockGap(text);
      (r == [] || EndsWith(r, "\n\n")) && text <= r && r[|text|..] in ["", "\n", "\n\n"]
      && (|text| == 0 || EndsWith(text, "\n\n") ==> r == text)
      && (EndsWith(text, "\n") && !EndsWith(text, "\n\n") ==> r == text + "\n")
      && (|text| > 0 && !EndsWith(text, "\n") ==> r == text + "\n\n")
      && BlockGap(r) == r
  {
    if |text| > 0 && !EndsWith(text, "\n\n") {
      if EndsWith(text, "\n") {
        LineThenNewline(text);
        assert (text + "\n")[|text|..] == "\n";
      } else {
        EndsWithAppended(text, "\n\n");
        assert text + "\n" + "\n" == text + "\n\n";
        assert (text + "\n\n")[|text|..] == "\n\n";
      }
    } else {
      assert text[|text|..] == "";
    }
  }

  /** A buffer that ends a line ends in a blank line after one more newline. */
  lemma LineThenNewline(text: string)
    requires EndsWith(text, "\n")
    ensures EndsWith(text + "\n", "\n\n")
  {
    var r := text + "\n";
    assert r[|r| - 2..] == [text[|text| - 1], '\n'];
  }

  /** Whatever was appended is a suffix. */
  lemma EndsWithAppended(text: string, suffix: string)
    ensures EndsWith(text + suffix, suffix)
  {
    assert (text + suffix)[|text|..] == suffix;
  }

  /** openEntity: push a span that starts at the current buffer length. */
  function Open(s: State, kind: Kind, extra: Extra): State {
    s.(stack := s.stack + [StackEntry(kind, |s.text|, extra)])
  }

  /** A close token at the current buffer length. */
  function CloseAt(s: State, kind: Kind): State {
    var (es, st) := Close(s.entities, s.stack, kind, |s.text|);
    s.(entities := es, stack := st)
  }

  /** The fence's language tag: the first word of its trimmed info string. */
  function Language(info: Option<string>): string {
    match info
    case Some(i) => FirstWord(Trim(i))
    case None => ""
  }

  /** The block's content with one final newline removed: exactly one
      newline goes when the content ends in one, nothing otherwise. */
  function DropFinalNewline(content: string): (r: string)
    ensures EndsWith(content, "\n") ==> content == r + "\n"
    ensures !EndsWith(content, "\n") ==> r == content
  {
    if EndsWith(content, "\n") then content[..|content| - 1] else content
  }

  /** A fenced or indented code block: a blank line, the content as a `pre`
      entity tagged with the language, a blank line. */
  function CodeBlockStep(s: State, content: string, info: Option<string>): State {
    var before := BlockGap(s.text);
    var body := DropFinalNewline(content);
    s.(text := BlockGap(before + body),
       entities := s.entities + [Entity(Pre, |before|, |body|, Lang(Language(info)))])
  }

  function InlineStep(s: State, c: InlineToken): State {
    match c
    case Text(content) => s.(text := s.text + content)
    case SoftBreak => s.(text := s.text + "\n")
    case HardBreak => s.(text := s.text + "\n")
    case StrongOpen => Open(s, Bold, NoExtra)
    case StrongClose => CloseAt(s, Bold)
    case EmOpen => Open(s, Italic, NoExtra)
    case EmClose => CloseAt(s, Italic)
    case SOpen => Open(s, Strikethrough, NoExtra)
    case DelOpen => Open(s, Strikethrough, NoExtra)
    case SClose => CloseAt(s, Strikethrough)
    case DelClose => CloseAt(s, Strikethrough)
    case LinkOpen(url) => Open(s, TextLink, Link(url))
    case LinkClose => CloseAt(s, TextLink)
    case CodeInline(content) =>
      s.(text := s.text + content, entities := s.entities + [Entity(Code, |s.text|, |content|, NoExtra)])
    case Image(alt) => s.(text := s.text + alt)
    case OtherInline => s
  }

  /** The inline tokens processed in order. */
  function InlineRun(s: State, cs: seq<InlineToken>): State {
    if cs == [] then s else InlineStep(InlineRun(s, cs[..|cs| - 1]), cs[|cs| - 1])
  }

  function BlockStep(s: State, t: BlockToken): State {
    match t
    case ParagraphOpen => s
    case ParagraphClose => if s.depth == 0 then s.(text := BlockGap(s.text)) else s
    case HeadingOpen => Open(s, Bold, NoExtra)
    case HeadingClose =>
      var c := CloseAt(s, Bold);
      c.(text := BlockGap(c.text))
    case Inline(children) => InlineRun(s, children)
    case BulletListOpen => s.(text := BlockGap(s.text))
    case OrderedListOpen => s.(text := BlockGap(s.text))
    case ListItemOpen => s.(depth := s.depth + 1, text := LineStart(s.text) + "• ")
    case ListItemClose => s.(text := s.text + "\n", depth := if s.depth == 0 then 0 else s.depth - 1)
    case Fence(content, info) => CodeBlockStep(s, content, info)
    case CodeBlock(content, info) => CodeBlockStep(s, content, info)
    case Hr => s.(text := BlockGap(BlockGap(s.text) + HrSeparator))
    case OtherBlock => s
  }

  /** The block tokens processed in order. */
  function BlockRun(s: State, ts: seq<BlockToken>): State {
    if ts == [] then s else BlockStep(BlockRun(s, ts[..|ts| - 1]), ts[|ts| - 1])
  }

  /** markdownToEntities, from the token stream on. */
  function Convert(tokens: seq<BlockToken>): State {
    BlockRun(Initial, tokens)
  }

  // ---------------------------------------------------------------------
  // Invariants of the builder

  /** Every open span starts inside the buffer, every entity lies inside the
      buffer, and the spans that went through the stack are non-empty. */
  predicate WellFormed(s: State) {
    (forall k :: 0 <= k < |s.stack| ==> 0 <= s.stack[k].offset <= |s.text|)
    && AllWithinText(s.entities, |s.text|)
    && (forall k :: 0 <= k < |s.entities| && IsStacked(s.entities[k].kind) ==> s.entities[k].length > 0)
  }

  /** s2 extends s1: the buffer and the entity list only grow at their ends. */
  predicate Extends(s1: State, s2: State) {
    s1.text <= s2.text && s1.entities <= s2.entities
  }

  lemma CloseAtKeeps(s: State, kind: Kind)
    requires WellFormed(s)
    ensures WellFormed(CloseAt(s, kind)) && Extends(s, CloseAt(s, kind))
    ensures CloseAt(s, kind).text == s.text
  {
    match TopmostOf(s.stack, kind)
    case None =>
    case Some(i) =>
      var c := CloseAt(s, kind);
      assert forall k :: 0 <= k < |c.stack| ==> c.stack[k] in s.stack;
  }

  lemma InlineStepKeeps(s: State, c: InlineToken)
    requires WellFormed(s)
    ensures WellFormed(InlineStep(s, c)) && Extends(s, InlineStep(s, c))
  {
    match c
    case StrongClose => CloseAtKeeps(s, Bold);
    case EmClose => CloseAtKeeps(s, Italic);
    case SClose => CloseAtKeeps(s, Strikethrough);
    case DelClose => CloseAtKeeps(s, Strikethrough);
    case LinkClose => CloseAtKeeps(s, TextLink);
    case Text(content) => GrowKeeps(s, InlineStep(s, c));
    case SoftBreak => GrowKeeps(s, InlineStep(s, c));
    case HardBreak => GrowKeeps(s, InlineStep(s, c));
    case Image(alt) => GrowKeeps(s, InlineStep(s, c));
    case CodeInline(content) =>
      var t := s.(text := s.text + content);
      GrowKeeps(s, t);
      AddEntityKeeps(t, Entity(Code, |s.text|, |content|, NoExtra));
    case StrongOpen => OpenKeeps(s, Bold, NoExtra);
    case EmOpen => OpenKeeps(s, Italic, NoExtra);
    case SOpen => OpenKeeps(s, Strikethrough, NoExtra);
    case DelOpen => OpenKeeps(s, Strikethrough, NoExtra);
    case LinkOpen(url) => OpenKeeps(s, TextLink, Link(url));
    case OtherInline =>
  }

  /** Opening a span keeps a well-formed state well-formed. */
  lemma OpenKeeps(s: State, kind: Kind, extra: Extra)
    requires WellFormed(s)
    ensures WellFormed(Open(s, kind, extra)) && Extends(s, Open(s, kind, extra))
  {
    var st := s.stack + [StackEntry(kind, |s.text|, extra)];
    assert forall k :: 0 <= k < |s.stack| ==> st[k] == s.stack[k];
  }

  lemma {:induction false} InlineRunKeeps(s: State, cs: seq<InlineToken>)
    requires WellFormed(s)
    ensures WellFormed(InlineRun(s, cs)) && Extends(s, InlineRun(s, cs))
  {
    if cs != [] {
      InlineRunKeeps(s, cs[..|cs| - 1]);
      InlineStepKeeps(InlineRun(s, cs[..|cs| - 1]), cs[|cs| - 1]);
    }
  }

  /** Appending to the buffer keeps a well-formed state well-formed. */
  lemma GrowKeeps(s: State, r: State)
    requires WellFormed(s) && s.text <= r.text && r.entities == s.entities && r.stack == s.stack
    ensures WellFormed(r) && Extends(s, r)
  {}

  /** The layout tokens only append newlines, bullets or the rule to the
      buffer; they leave the entities and the open spans alone. */
  lemma LayoutGrows(s: State, t: BlockToken)
    requires t.ParagraphClose? || t.BulletListOpen? || t.OrderedListOpen?
      || t.ListItemOpen? || t.ListItemClose? || t.Hr?
    ensures var r := BlockStep(s, t);
      s.text <= r.text && r.entities == s.entities && r.stack == s.stack
  {
    match t
    case ParagraphClose => BlockGapShape(s.text);
    case BulletListOpen => BlockGapShape(s.text);
    case OrderedListOpen => BlockGapShape(s.text);
    case ListItemOpen => LineStartShape(s.text);
    case ListItemClose =>
    case Hr =>
      BlockGapShape(s.text);
      BlockGapShape(BlockGap(s.text) + HrSeparator);
  }

  lemma BlockStepKeeps(s: State, t: BlockToken)
    requires WellFormed(s)
    ensures WellFormed(BlockStep(s, t)) && Extends(s, BlockStep(s, t))
  {
    match t
    case HeadingClose =>
      CloseAtKeeps(s, Bold);
      BlockGapShape(s.text);
      GrowKeeps(CloseAt(s, Bold), BlockStep(s, t));
    case Inline(children) => InlineRunKeeps(s, children);
    case Fence(content, info) => CodeBlockKeeps(s, content, info);
    case CodeBlock(content, info) => CodeBlockKeeps(s, content, info);
    case ParagraphOpen =>
    case HeadingOpen =>
    case OtherBlock =>
    case _ =>
      LayoutGrows(s, t);
      GrowKeeps(s, BlockStep(s, t));
  }

  lemma CodeBlockKeeps(s: State, content: string, info: Option<string>)
    requires WellFormed(s)
    ensures WellFormed(CodeBlockStep(s, content, info)) && Extends(s, CodeBlockStep(s, content, info))
  {
    var before := BlockGap(s.text);
    var body := DropFinalNewline(content);
    var r := CodeBlockStep(s, content, info);
    var e := Entity(Pre, |before|, |body|, Lang(Language(info)));
    assert s.text <= before + body && before + body <= r.text by {
      BlockGapShape(s.text);
      BlockGapShape(before + body);
    }
    var t := s.(text := r.text);
    GrowKeeps(s, t);
    AddEntityKeeps(t, e);
    assert r == t.(entities := t.entities + [e]);
  }

  /** Recording an entity that lies inside the text keeps the state well formed. */
  lemma AddEntityKeeps(s: State, e: Entity)
    requires WellFormed(s) && WithinText(e, |s.text|) && (IsStacked(e.kind) ==> e.length > 0)
    ensures WellFormed(s.(entities := s.entities + [e])) && Extends(s, s.(entities := s.entities + [e]))
  {
    var es := s.entities + [e];
    assert forall k :: 0 <= k < |s.entities| ==> es[k] == s.entities[k];
  }

  lemma {:induction false} BlockRunKeeps(s: State, ts: seq<BlockToken>)
    requires WellFormed(s)
    ensures WellFormed(BlockRun(s, ts)) && Extends(s, BlockRun(s, ts))
  {
    if ts != [] {
      BlockRunKeeps(s, ts[..|ts| - 1]);
      BlockStepKeeps(BlockRun(s, ts[..|ts| - 1]), ts[|ts| - 1]);
    }
  }

  /** Every entity of a conversion lies inside the text, and every span that
      went through the stack has positive length. */
  lemma ConvertWellFormed(tokens: seq<BlockToken>)
    ensures WellFormed(Convert(tokens))
  {
    BlockRunKeeps(Initial, tokens);
  }

  /** An inline code span emits a `code` entity at the old end of the text,
      over exactly the appended content, behind the earlier entities. */
  lemma CodeInlineCovers(s: State, content: string)
    ensures var r := InlineStep(s, CodeInline(content));
      var e := Entity(Code, |s.text|, |content|, NoExtra);
      r.text == s.text + content && r.stack == s.stack && r.entities == s.entities + [e]
      && WithinText(e, |r.text|) && r.text[e.offset..e.End()] == content
  {
    var r := InlineStep(s, CodeInline(content));
    assert r.text[|s.text|..|s.text| + |content|] == content;
  }

  /** A fenced or indented code block emits one `pre` entity behind the
      earlier ones: it starts after the blank line that separates it, covers
      exactly the content without its final newline, and carries the first
      word of the info string as its language. */
  lemma CodeBlockCovers(s: State, content: string, info: Option<string>)
    ensures var r := CodeBlockStep(s, content, info);
      var body := DropFinalNewline(content);
      var e := Entity(Pre, |BlockGap(s.text)|, |body|, Lang(Language(info)));
      r.stack == s.stack && r.entities == s.entities + [e]
      && WithinText(e, |r.text|) && r.text[e.offset..e.End()] == body
      && r.text[..e.offset] == BlockGap(s.text)
  {
    var before := BlockGap(s.text);
    var body := DropFinalNewline(content);
    var r := CodeBlockStep(s, content, info);
    assert before + body <= r.text by {
      BlockGapShape(before + body);
    }
    PartsOfPrefix(before, body, r.text);
  }

  /** When a + b is a prefix of t, t holds a and then b. */
  lemma PartsOfPrefix(a: string, b: string, t: string)
    requires a + b <= t
    ensures |a| + |b| <= |t| && t[..|a|] == a && t[|a|..|a| + |b|] == b
  {
    assert t[..|a|] == (a + b)[..|a|];
    assert t[|a|..|a| + |b|] == (a + b)[|a|..];
  }

  /** An image appends its alternative text and emits nothing. */
  lemma ImageAppendsAlt(s: State, alt: string)
    ensures var r := InlineStep(s, Image(alt));
      r.text == s.text + alt && r.entities == s.entities && r.stack == s.stack
  {}

  /** A list item starts on a fresh line with the bullet marker and ends with
      one newline; paragraphs inside it add no gap; the depth never drops below 0. */
  lemma ListItemLayout(s: State)
    ensures var r := BlockStep(s, ListItemOpen);
      r.depth == s.depth + 1 && r.entities == s.entities
      && (exists pre :: r.text == pre + "• " && (pre == [] || EndsWith(pre, "\n")) && s.text <= pre
            && |pre| <= |s.text| + 1)
      && (s.text == [] || EndsWith(s.text, "\n") ==> r.text == s.text + "• ")
      && (s.text != [] && !EndsWith(s.text, "\n") ==> r.text == s.text + "\n" + "• ")
    ensures var r := BlockStep(s, ListItemClose);
      r.text == s.text + "\n" && r.depth == if s.depth > 0 then s.depth - 1 else 0
    ensures s.depth > 0 ==> BlockStep(s, ParagraphClose) == s
    ensures BlockStep(BlockStep(s, ListItemClose), ListItemOpen).text == s.text + "\n" + "• "
  {
    var pre := LineStart(s.text);
    assert BlockStep(s, ListItemOpen).text == pre + "• ";
    assert (pre == [] || EndsWith(pre, "\n")) && s.text <= pre && |pre| <= |s.text| + 1
      && (s.text == [] || EndsWith(s.text, "\n") ==> pre == s.text)
      && (s.text != [] && !EndsWith(s.text, "\n") ==> pre == s.text + "\n") by {
      LineStartShape(s.text);
    }
    assert LineStart(s.text + "\n") == s.text + "\n" by {
      LineStartShape(s.text + "\n");
    }
  }

  lemma InlineRunSnoc(s: State, cs: seq<InlineToken>, c: InlineToken)
    ensures InlineRun(s, cs + [c]) == InlineStep(InlineRun(s, cs), c)
  {
    assert (cs + [c])[..|cs|] == cs;
  }

  lemma BlockRunSnoc(s: State, ts: seq<BlockToken>, t: BlockToken)
    ensures BlockRun(s, ts + [t]) == BlockStep(BlockRun(s, ts), t)
  {
    assert (ts + [t])[..|ts|] == ts;
  }

  /** One `inline` token holding `open`, a text and `close` appends the text
      and emits one entity of `kind` over it. */
  lemma WrappedText(s: State, open: InlineToken, word: string, close: InlineToken, kind: Kind)
    requires (open == StrongOpen && close == StrongClose && kind == Bold)
          || (open == EmOpen && close == EmClose && kind == Italic)
    requires |word| > 0
    ensures BlockStep(s, Inline([open, Text(word), close]))
         == s.(text := s.text + word, entities := s.entities + [Entity(kind, |s.text|, |word|, NoExtra)])
  {
    var s1 := s.(stack := s.stack + [StackEntry(kind, |s.text|, NoExtra)]);
    var s2 := s1.(text := s.text + word);
    var r := s.(text := s.text + word, entities := s.entities + [Entity(kind, |s.text|, |word|, NoExtra)]);
    assert InlineRun(s, [open]) == s1 by {
      InlineRunSnoc(s, [], open);
      assert [] + [open] == [open];
    }
    assert InlineRun(s, [open, Text(word)]) == s2 by {
      InlineRunSnoc(s, [open], Text(word));
      assert [open] + [Text(word)] == [open, Text(word)];
    }
    assert InlineStep(s2, close) == r by {
      assert InlineStep(s2, close) == CloseAt(s2, kind);
      CloseJustOpened(s, kind, word);
    }
    var cs := [open, Text(word), close];
    assert InlineRun(s, cs) == r by {
      InlineRunSnoc(s, [open, Text(word)], close);
      assert [open, Text(word)] + [close] == cs;
    }
    assert BlockStep(s, Inline(cs)) == InlineRun(s, cs);
  }

  /** Closing the span opened last, after some text was appended, emits one
      entity over that text and pops the span. */
  lemma CloseJustOpened(s: State, kind: Kind, word: string)
    requires |word| > 0
    ensures var s2 := s.(stack := s.stack + [StackEntry(kind, |s.text|, NoExtra)], text := s.text + word);
      CloseAt(s2, kind) == s.(text := s.text + word, entities := s.entities + [Entity(kind, |s.text|, |word|, NoExtra)])
  {
    var s2 := s.(stack := s.stack + [StackEntry(kind, |s.text|, NoExtra)], text := s.text + word);
    CloseTopmost(s2.entities, s2.stack, kind, |s2.text|, |s.stack|);
    assert s2.stack[..|s.stack|] + s2.stack[|s.stack| + 1..] == s.stack;
  }

  lemma {:induction false} BlockRunAppend(s: State, a: seq<BlockToken>, b: seq<BlockToken>)
    ensures BlockRun(s, a + b) == BlockRun(BlockRun(s, a), b)
  {
    if b == [] {
      assert a + b == a;
    } else {
      var b' := b[..|b| - 1];
      assert a + b == (a + b') + [b[|b| - 1]];
      BlockRunSnoc(s, a + b', b[|b| - 1]);
      BlockRunAppend(s, a, b');
    }
  }

  /** The tokens of one bullet item holding one wrapped word. */
  function ItemTokens(open: InlineToken, word: string, close: InlineToken): seq<BlockToken> {
    [ListItemOpen] + [ParagraphOpen] + [Inline([open, Text(word), close])] + [ParagraphClose] + [ListItemClose]
  }

  /** A bullet item whose paragraph is one wrapped word, started at a line
      start outside any list item, becomes "• " + word + "\n" with one entity
      over the word. */
  lemma BulletItem(s: State, open: InlineToken, word: string, close: InlineToken, kind: Kind)
    requires (open == StrongOpen && close == StrongClose && kind == Bold)
          || (open == EmOpen && close == EmClose && kind == Italic)
    requires |word| > 0 && s.depth == 0 && (s.text == [] || EndsWith(s.text, "\n"))
    ensures BlockRun(s, ItemTokens(open, word, close))
         == State(s.text + "• " + word + "\n", s.entities + [Entity(kind, |s.text| + 2, |word|, NoExtra)], s.stack, 0)
  {
    var inl := Inline([open, Text(word), close]);
    var s1 := s.(text := s.text + "• ", depth := 1);
    var opening: seq<BlockToken> := [ListItemOpen] + [ParagraphOpen];
    var closing: seq<BlockToken> := [ParagraphClose] + [ListItemClose];
    var s3 := s1.(text := s1.text + word, entities := s.entities + [Entity(kind, |s1.text|, |word|, NoExtra)]);
    var s4 := s3.(text := s3.text + "\n", depth := 0);
    assert BlockRun(s, opening) == s1 by {
      ItemOpens(s);
    }
    assert BlockRun(s1, [inl]) == s3 by {
      BlockRunOne(s1, inl);
      WrappedText(s1, open, word, close, kind);
    }
    assert BlockRun(s3, closing) == s4 by {
      ItemCloses(s3);
    }
    assert |s1.text| == |s.text| + 2;
    assert s4 == State(s.text + "• " + word + "\n", s.entities + [Entity(kind, |s.text| + 2, |word|, NoExtra)], s.stack, 0);
    assert ItemTokens(open, word, close) == opening + [inl] + closing;
    BlockRunChain(s, opening, [inl], closing, s1, s3, s4);
  }

  lemma BlockRunOne(s: State, t: BlockToken)
    ensures BlockRun(s, [t]) == BlockStep(s, t)
  {
    BlockRunSnoc(s, [], t);
    assert [] + [t] == [t];
  }

  lemma BlockRunChain(s: State, a: seq<BlockToken>, b: seq<BlockToken>, c: seq<BlockToken>, s1: State, s2: State, s3: State)
    requires BlockRun(s, a) == s1 && BlockRun(s1, b) == s2 && BlockRun(s2, c) == s3
    ensures BlockRun(s, a + b + c) == s3
  {
    BlockRunAppend(s, a + b, c);
    BlockRunAppend(s, a, b);
  }

  /** A list item opened at a line start, with its paragraph: the bullet goes
      straight on, one level deeper. */
  lemma ItemOpens(s: State)
    requires s.text == [] || EndsWith(s.text, "\n")
    ensures BlockRun(s, [ListItemOpen] + [ParagraphOpen]) == s.(text := s.text + "• ", depth := s.depth + 1)
  {
    assert LineStart(s.text) == s.text;
    var ts: seq<BlockToken> := [ListItemOpen] + [ParagraphOpen];
    assert ts[..1] == [ListItemOpen] && ts[..1][..0] == [];
    var s1 := BlockStep(s, ListItemOpen);
    assert BlockRun(s, ts[..1]) == s1;
    assert BlockRun(s, ts) == BlockStep(s1, ParagraphOpen) == s1;
  }

  /** A paragraph closed inside a top-level item, then the item: one newline,
      back to depth 0. */
  lemma ItemCloses(s: State)
    requires s.depth == 1
    ensures BlockRun(s, [ParagraphClose] + [ListItemClose]) == s.(text := s.text + "\n", depth := 0)
  {
    var ts: seq<BlockToken> := [ParagraphClose] + [ListItemClose];
    assert ts[..1] == [ParagraphClose] && ts[..1][..0] == [];
    assert BlockRun(s, ts[..1]) == BlockStep(s, ParagraphClose) == s;
    assert BlockRun(s, ts) == BlockStep(s, ListItemClose);
  }

  /** The tokens of a bullet list of a bold item and an italic item, both
      holding `word`, followed by some other block token. */
  function ListTokens(word: string): seq<BlockToken> {
    [BulletListOpen] + ItemTokens(StrongOpen, word, StrongClose) + ItemTokens(EmOpen, word, EmClose)
    + [OtherBlock]
  }

  /** Such a list becomes two bullet lines with a bold and an italic entity. */
  lemma TwoItems(word: string)
    requires |word| > 0
    ensures Convert(ListTokens(word))
      == State("• " + word + "\n" + "• " + word + "\n",
               [Entity(Bold, 2, |word|, NoExtra), Entity(Italic, |word| + 5, |word|, NoExtra)], [], 0)
  {
    var first: seq<BlockToken> := [BulletListOpen] + ItemTokens(StrongOpen, word, StrongClose);
    var rest := ItemTokens(EmOpen, word, EmClose) + [OtherBlock];
    FirstItem(word);
    SecondItem(word);
    BlockRunAppend(Initial, first, rest);
    assert ListTokens(word) == first + rest;
  }

  /** The list opening and the bold item. */
  lemma FirstItem(word: string)
    requires |word| > 0
    ensures BlockRun(Initial, [BulletListOpen] + ItemTokens(StrongOpen, word, StrongClose))
      == State("• " + word + "\n", [Entity(Bold, 2, |word|, NoExtra)], [], 0)
  {
    BlockRunOne(Initial, BulletListOpen);
    BulletItem(Initial, StrongOpen, word, StrongClose, Bold);
    assert "" + "• " + word + "\n" == "• " + word + "\n";
    BlockRunAppend(Initial, [BulletListOpen], ItemTokens(StrongOpen, word, StrongClose));
  }

  /** The italic item and the block after the list. */
  lemma SecondItem(word: string)
    requires |word| > 0
    ensures var s1 := State("• " + word + "\n", [Entity(Bold, 2, |word|, NoExtra)], [], 0);
      BlockRun(s1, ItemTokens(EmOpen, word, EmClose) + [OtherBlock])
      == State("• " + word + "\n" + "• " + word + "\n",
               [Entity(Bold, 2, |word|, NoExtra), Entity(Italic, |word| + 5, |word|, NoExtra)], [], 0)
  {
    var s1 := State("• " + word + "\n", [Entity(Bold, 2, |word|, NoExtra)], [], 0);
    assert EndsWith(s1.text, "\n");
    BulletItem(s1, EmOpen, word, EmClose, Italic);
    BlockRunSnoc(s1, ItemTokens(EmOpen, word, EmClose), OtherBlock);
  }

  /** "- **bold**\n- __bold__", which the preprocessor turns into
      "- **bold**\n- *bold*", becomes "• bold\n• bold\n" with bold at 2/4
      and italic at 9/4. */
  lemma ListScenario()
    ensures Convert(ListTokens("bold"))
      == State("• bold\n• bold\n", [Entity(Bold, 2, 4, NoExtra), Entity(Italic, 9, 4, NoExtra)], [], 0)
  {
    TwoItems("bold");
  }

  // ---------------------------------------------------------------------
  // The procedure

  /** The local state of one markdownToEntities call and its helper closures. */
  class Builder {
    var text: string
    var entities: seq<Entity>
    var stack: seq<StackEntry>
    var listItemDepth: nat

    function Snapshot(): State
      reads this
    {
      State(text, entities, stack, listItemDepth)
    }

    constructor ()
      ensures Snapshot() == Initial
    {
      text, entities, stack, listItemDepth := "", [], [], 0;
    }

    method Append(chunk: string)
      modifies this
      ensures Snapshot() == old(Snapshot()).(text := old(text) + chunk)
    {
      text := text + chunk;
    }

    method EnsureLineStart()
      modifies this
      ensures Snapshot() == old(Snapshot()).(text := LineStart(old(text)))
    {
      if |text| == 0 {
        return;
      }
      if !EndsWith(text, "\n") {
        Append("\n");
      }
    }

    method AppendBlockGap()
      modifies this
      ensures Snapshot() == old(Snapshot()).(text := BlockGap(old(text)))
    {
      if |text| == 0 {
        return;
      }
      if !EndsWith(text, "\n\n") {
        if !EndsWith(text, "\n") {
          Append("\n");
        }
        Append("\n");
      }
    }

    method OpenEntity(kind: Kind, extra: Extra)
      modifies this
      ensures Snapshot() == Open(old(Snapshot()), kind, extra)
    {
      stack := stack + [StackEntry(kind, |text|, extra)];
    }

    method CloseSpan(kind: Kind)
      modifies this
      ensures Snapshot() == CloseAt(old(Snapshot()), kind)
    {
      entities, stack := CloseEntity(entities, stack, kind, |text|);
    }

    /** handleInline: the inline tokens of one `inline` block token. */
    method HandleInline(children: seq<InlineToken>)
      modifies this
      ensures Snapshot() == InlineRun(old(Snapshot()), children)
    {
      for i := 0 to |children|
        invariant Snapshot() == InlineRun(old(Snapshot()), children[..i])
      {
        assert children[..i + 1][..i] == children[..i];
        HandleChild(children[i]);
      }
      assert children[..|children|] == children;
    }

    /** One iteration of the inline loop: the switch on the child token. */
    method HandleChild(child: InlineToken)
      modifies this
      ensures Snapshot() == InlineStep(old(Snapshot()), child)
    {
      match child
      case Text(content) => Append(content);
      case SoftBreak => Append("\n");
      case HardBreak => Append("\n");
      case StrongOpen => OpenEntity(Bold, NoExtra);
      case StrongClose => CloseSpan(Bold);
      case EmOpen => OpenEntity(Italic, NoExtra);
      case EmClose => CloseSpan(Italic);
      case SOpen => OpenEntity(Strikethrough, NoExtra);
      case DelOpen => OpenEntity(Strikethrough, NoExtra);
      case SClose => CloseSpan(Strikethrough);
      case DelClose => CloseSpan(Strikethrough);
      case LinkOpen(url) => OpenEntity(TextLink, Link(url));
      case LinkClose => CloseSpan(TextLink);
      case CodeInline(content) =>
        var start := |text|;
        Append(content);
        entities := entities + [Entity(Code, start, |content|, NoExtra)];
      case Image(alt) => Append(alt);
      case OtherInline =>
    }

    /** One iteration of the main loop: the switch on the block token. */
    method HandleBlock(token: BlockToken)
      modifies this
      ensures Snapshot() == BlockStep(old(Snapshot()), token)
    {
      match token
      case ParagraphOpen =>
      case ParagraphClose =>
        if listItemDepth == 0 {
          AppendBlockGap();
        }
      case HeadingOpen => OpenEntity(Bold, NoExtra);
      case HeadingClose =>
        CloseSpan(Bold);
        AppendBlockGap();
      case Inline(children) => HandleInline(children);
      case BulletListOpen => AppendBlockGap();
      case OrderedListOpen => AppendBlockGap();
      case ListItemOpen =>
        listItemDepth := listItemDepth + 1;
        EnsureLineStart();
        Append("• ");
      case ListItemClose =>
        Append("\n");
        listItemDepth := if listItemDepth - 1 < 0 then 0 else listItemDepth - 1;
      case Fence(content, info) => HandleCodeBlock(content, info);
      case CodeBlock(content, info) => HandleCodeBlock(content, info);
      case Hr =>
        AppendBlockGap();
        Append(HrSeparator);
        AppendBlockGap();
      case OtherBlock =>
    }

    /** The `fence` / `code_block` case. */
    method HandleCodeBlock(content: string, info: Option<string>)
      modifies this
      ensures Snapshot() == CodeBlockStep(old(Snapshot()), content, info)
    {
      AppendBlockGap();
      var start := |text|;
      var body := DropFinalNewline(content);
      Append(body);
      var language := Language(info);
      entities := entities + [Entity(Pre, start, |body|, Lang(language))];
      AppendBlockGap();
    }
  }

  /** markdownToEntities over an already tokenized input: the flat text and
      the entities, each inside the text, stacked ones non-empty. */
  method MarkdownToEntities(tokens: seq<BlockToken>) returns (text: string, entities: seq<Entity>)
    ensures text == Convert(tokens).text && entities == Convert(tokens).entities
    ensures AllWithinText(entities, |text|)
    ensures forall k :: 0 <= k < |entities| && IsStacked(entities[k].kind) ==> entities[k].length > 0
  {
    var b := new Builder();
    for i := 0 to |tokens|
      invariant b.Snapshot() == BlockRun(Initial, tokens[..i])
    {
      assert tokens[..i + 1][..i] == tokens[..i];
      b.HandleBlock(tokens[i]);
    }
    assert tokens[..|tokens|] == tokens;
    ConvertWellFormed(tokens);
    text, entities := b.text, b.entities;
  }
}
