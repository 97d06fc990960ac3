/** Shared vocabulary of the conversion engine: formatting spans ("entities")
    over a flat text, as the messaging surface's wire format defines them. */
module Entities {

  datatype Option<+T> = None | Some(value: T)

  /** The six span kinds the messaging surface supports. */
  datatype Kind = Bold | Italic | Strikethrough | Code | Pre | TextLink

  /** Kind-specific extra data: nothing, a link target (absent when the
      tokenizer gave none), or the language tag of a preformatted block. */
  datatype Extra = NoExtra | Link(url: Option<string>) | Lang(language: string)

  /** An entity covers text[offset .. offset + length]. Offsets are plain
      integers: the splitter accepts whatever its caller hands it. */
  datatype Entity = Entity(kind: Kind, offset: int, length: int, extra: Extra)
  {
    function End(): int { offset + length }
  }

  /** The kinds the builder opens and closes through its span stack. */
  predicate IsStacked(k: Kind) {
    k == Bold || k == Italic || k == Strikethrough || k == TextLink
  }

  /** The data-model invariant: the span lies inside a text of length n. */
  predicate WithinText(e: Entity, n: int) {
    0 <= e.offset && 0 <= e.length && e.offset + e.length <= n
  }

  predicate AllWithinText(es: seq<Entity>, n: int) {
    forall k :: 0 <= k < |es| ==> WithinText(es[k], n)
  }
}
