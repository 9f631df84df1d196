/** The block loop of the DOCX adapter: when a body fits the limits, and the methods that emit it. */
module DocxDocument {
  import opened Basics
  import opened DocxTree
  import opened DocxView
  import opened DocxTables

  // ----- blocks that are not handled -----

  predicate Handled(block: Node) {
    block.name == "tbl" || block.name == "sectPr" || block.name == "altChunk" || IsWrapper(block.name)
    || IsMarker(block.name)
  }

  /** The names of the unhandled blocks a block consists of, in order; each gets a diagnostic. */
  function Unhandled(view: RevisionView, block: Node): seq<string>
    decreases block, 7, 0
  {
    if block.name == "p" || block.name == "tbl" || block.name == "sectPr" || block.name == "altChunk" then []
    else if IsWrapper(block.name) then
      if Excluded(view, block.name) then []
      else if block.name == "sdt" then
        var content := SdtContent(block);
        if content.None? then [] else UnhandledIn(view, block.children[content.value], 0, true)
      else UnhandledIn(view, block, 0, true)
    else if IsMarker(block.name) then []
    else [block.name]
  }

  function UnhandledIn(view: RevisionView, parentNode: Node, k: nat, skipProperties: bool): seq<string>
    requires k <= |parentNode.children|
    decreases parentNode, 6, |parentNode.children| - k
  {
    if k == |parentNode.children| then []
    else
      (if skipProperties && IsProperties(parentNode.children[k].name) then [] else Unhandled(view, parentNode.children[k]))
      + UnhandledIn(view, parentNode, k + 1, skipProperties)
  }

  /**
   Diagnostics tell blocks by their upper-cased name, so an unhandled block in a wrapper is taken for the
   wrapper itself when the names differ only in case, and reading fails.
   */
  predicate Clashes(policy: Policy, name: string, unhandled: seq<string>) {
    exists n :: n in unhandled && policy.upper(n) == policy.upper(name)
  }

  // ----- when a body fits -----

  /** The limit checks a block passes when `n` elements precede it.  The separator of a paragraph is
      checked before its text-box tables take its place. */
  ghost predicate BlockFits(policy: Policy, n: nat, block: Node, path: Path, parent: Option<Path>)
    decreases block, 7, 0
  {
    if block.name == "p" then
      CanAppend(policy, n, [ParagraphContent(policy, block)] + (if EndsSection(block) then [Separator] else []))
      && CanAppend(policy, n + 1, BoxedContents(policy, block, path, parent))
    else if block.name != "tbl" && block.name != "sectPr" && block.name != "altChunk" && IsWrapper(block.name) then
      Excluded(policy.view, block.name)
      || ((if block.name == "sdt" then
             SdtContent(block).Some? ==>
               BlocksFit(policy, n, block.children[SdtContent(block).value], 0, true, path + [Wrapper(block.name)], parent)
           else BlocksFit(policy, n, block, 0, true, path + [Wrapper(block.name)], parent))
          && !Clashes(policy, block.name, Unhandled(policy.view, block)))
    else CanAppend(policy, n, BlockContents(policy, block, path, parent))
  }

  ghost predicate BlocksFit(policy: Policy, n: nat, parentNode: Node, k: nat, skipProperties: bool, base: Path, parent: Option<Path>)
    requires k <= |parentNode.children|
    decreases parentNode, 6, |parentNode.children| - k
  {
    k == |parentNode.children|
    || var child := parentNode.children[k];
       if skipProperties && IsProperties(child.name) then
         BlocksFit(policy, n, parentNode, k + 1, skipProperties, base, parent)
       else
         BlockFits(policy, n, child, base + [Index(k)], parent)
         && BlocksFit(policy, n + |BlockContents(policy, child, base + [Index(k)], parent)|,
                      parentNode, k + 1, skipProperties, base, parent)
  }

  ghost predicate Ran(start: seq<Element>, now: seq<Element>, ok: bool, fits: bool, contents: seq<Content>) {
    (ok <==> fits) && (ok ==> now == Appended(start, contents)) && start <= now && (Ordered(start) ==> Ordered(now))
  }

  lemma EmittedRan(policy: Policy, start: seq<Element>, now: seq<Element>, ok: bool, contents: seq<Content>)
    ensures Emitted(policy, start, now, ok, contents) <==> Ran(start, now, ok, CanAppend(policy, |start|, contents), contents)
  {}

  /** The loop over child blocks: one more block after those done. */
  lemma RanThen(start: seq<Element>, middle: seq<Element>, now: seq<Element>, ok: bool, fits: bool,
                done: seq<Content>, step: seq<Content>)
    requires middle == Appended(start, done) && (Ordered(start) ==> Ordered(middle))
    requires Ran(middle, now, ok, fits, step)
    ensures ok ==> now == Appended(start, done + step)
    ensures start <= now && (Ordered(start) ==> Ordered(now))
  {
    AppendedConcat(start, done, step);
  }

  lemma ContentsUnfold(policy: Policy, parentNode: Node, k: nat, skipProperties: bool, base: Path, parent: Option<Path>)
    requires k <= |parentNode.children|
    ensures var rest := BlocksContents(policy, parentNode, k, skipProperties, base, parent);
            if k == |parentNode.children| then rest == []
            else if skipProperties && IsProperties(parentNode.children[k].name) then
              rest == BlocksContents(policy, parentNode, k + 1, skipProperties, base, parent)
            else
              rest == BlockContents(policy, parentNode.children[k], base + [Index(k)], parent)
                      + BlocksContents(policy, parentNode, k + 1, skipProperties, base, parent)
  {
    hide BlockContents, IsProperties;
  }

  lemma FitUnfold(policy: Policy, n: nat, parentNode: Node, k: nat, skipProperties: bool, base: Path, parent: Option<Path>)
    requires k <= |parentNode.children|
    ensures var fits := BlocksFit(policy, n, parentNode, k, skipProperties, base, parent);
            if k == |parentNode.children| then fits
            else if skipProperties && IsProperties(parentNode.children[k].name) then
              fits == BlocksFit(policy, n, parentNode, k + 1, skipProperties, base, parent)
            else
              fits == (BlockFits(policy, n, parentNode.children[k], base + [Index(k)], parent)
                       && BlocksFit(policy, n + |BlockContents(policy, parentNode.children[k], base + [Index(k)], parent)|,
                                    parentNode, k + 1, skipProperties, base, parent))
  {
    hide BlockContents, BlockFits, IsProperties;
  }

  lemma UnhandledUnfold(view: RevisionView, parentNode: Node, k: nat, skipProperties: bool)
    requires k <= |parentNode.children|
    ensures var rest := UnhandledIn(view, parentNode, k, skipProperties);
            if k == |parentNode.children| then rest == []
            else if skipProperties && IsProperties(parentNode.children[k].name) then rest == UnhandledIn(view, parentNode, k + 1, skipProperties)
            else rest == Unhandled(view, parentNode.children[k]) + UnhandledIn(view, parentNode, k + 1, skipProperties)
  {
    hide Unhandled, IsProperties;
  }

  class BodyAdapter {
    const policy: Policy
    const tables: DocxAdapter

    /** The names of the unhandled blocks, one for each diagnostic given. */
    var diagnostics: seq<string>

    constructor (policy: Policy)
      ensures Valid() && this.policy == policy && fresh(tables) && fresh(tables.emitter)
      ensures tables.emitter.elements == [] && diagnostics == []
    {
      this.policy := policy;
      this.diagnostics := [];
      this.tables := new DocxAdapter(policy);
    }

    ghost predicate Valid() {
      tables.policy == policy && tables.Valid()
    }

    /** The whole body. */
    method ReadBody(body: Node) returns (ok: bool)
      requires Valid() && tables.emitter.elements == []
      modifies this`diagnostics, tables.emitter
      ensures ok <==> BlocksFit(policy, 0, body, 0, false, [Body], None)
      ensures ok ==> tables.emitter.elements == Appended([], BlocksContents(policy, body, 0, false, [Body], None))
      ensures ok ==> diagnostics == old(diagnostics) + UnhandledIn(policy.view, body, 0, false)
      ensures Ordered(tables.emitter.elements)
    {
      ok := EmitChildren(body, false, [Body], None);
    }

    method EmitChildren(parentNode: Node, skipProperties: bool, base: Path, parent: Option<Path>) returns (ok: bool)
      requires Valid()
      modifies this`diagnostics, tables.emitter
      ensures ok ==> diagnostics == old(diagnostics) + UnhandledIn(policy.view, parentNode, 0, skipProperties)
      ensures Ran(old(tables.emitter.elements), tables.emitter.elements, ok,
                  BlocksFit(policy, |old(tables.emitter.elements)|, parentNode, 0, skipProperties, base, parent),
                  BlocksContents(policy, parentNode, 0, skipProperties, base, parent))
      decreases parentNode, 1
    {
      hide BlockFits, BlockContents, BlocksFit, BlocksContents, IsProperties, Unhandled, UnhandledIn;
      ghost var start, done := tables.emitter.elements, [];
      ghost var names := UnhandledIn(policy.view, parentNode, 0, skipProperties);
      ghost var whole := BlocksContents(policy, parentNode, 0, skipProperties, base, parent);
      ghost var fits := BlocksFit(policy, |start|, parentNode, 0, skipProperties, base, parent);
      AppendedConcat(start, [], []);
      for k := 0 to |parentNode.children|
        invariant tables.emitter.elements == Appended(start, done)
        invariant Ordered(start) ==> Ordered(tables.emitter.elements)
        invariant whole == done + BlocksContents(policy, parentNode, k, skipProperties, base, parent)
        invariant fits <==> BlocksFit(policy, |start| + |done|, parentNode, k, skipProperties, base, parent)
        invariant old(diagnostics) + names == diagnostics + UnhandledIn(policy.view, parentNode, k, skipProperties)
      {
        UnhandledUnfold(policy.view, parentNode, k, skipProperties);
        var child := parentNode.children[k];
        ContentsUnfold(policy, parentNode, k, skipProperties, base, parent);
        FitUnfold(policy, |start| + |done|, parentNode, k, skipProperties, base, parent);
        if !(skipProperties && IsProperties(child.name)) {
          ghost var middle := tables.emitter.elements;
          ok := EmitBlock(child, base + [Index(k)], parent);
          ghost var step := BlockContents(policy, child, base + [Index(k)], parent);
          RanThen(start, middle, tables.emitter.elements, ok,
                  BlockFits(policy, |middle|, child, base + [Index(k)], parent), done, step);
          if !ok {
            return;
          }
          done := done + step;
        }
      }
      ContentsUnfold(policy, parentNode, |parentNode.children|, skipProperties, base, parent);
      FitUnfold(policy, |start| + |done|, parentNode, |parentNode.children|, skipProperties, base, parent);
      UnhandledUnfold(policy.view, parentNode, |parentNode.children|, skipProperties);
      assert whole == done;
      ok := true;
    }

    /** Text-box layer: the block, then the text-box tables of a paragraph, which come before its section
        separator: the separator is popped and put back with a new order, without a limit check. */
    method EmitBlock(block: Node, path: Path, parent: Option<Path>) returns (ok: bool)
      requires Valid()
      modifies this`diagnostics, tables.emitter
      ensures ok ==> diagnostics == old(diagnostics) + Unhandled(policy.view, block)
      ensures Ran(old(tables.emitter.elements), tables.emitter.elements, ok,
                  BlockFits(policy, |old(tables.emitter.elements)|, block, path, parent),
                  BlockContents(policy, block, path, parent))
      decreases block, 4
    {
      if block.name != "p" {
        ok := EmitBlockPreserving(block, path, parent);
        return;
      }
      hide EntriesContents, BoxedContents, ParagraphContent, Emitted, CanAppend;
      ghost var start := tables.emitter.elements;
      ghost var paragraph, boxed := [ParagraphContent(policy, block)], BoxedContents(policy, block, path, parent);
      var before := |tables.emitter.elements|;
      ok := EmitParagraph(block);
      EmittedRan(policy, start, tables.emitter.elements, ok, paragraph + (if EndsSection(block) then [Separator] else []));
      if !ok {
        return;
      }
      var trailing := PopSeparator(before, start, ParagraphContent(policy, block), EndsSection(block));
      ghost var middle := tables.emitter.elements;
      ok := EmitTextboxTables(block, path, parent);
      RanThen(start, middle, tables.emitter.elements, ok, CanAppend(policy, |middle|, boxed), paragraph, boxed);
      if !ok {
        return;
      }
      if trailing.Some? {
        AppendedConcat(start, paragraph + boxed, [Separator]);
        tables.emitter.elements := tables.emitter.elements + [Element(|tables.emitter.elements|, trailing.value.content)];
      } else {
        assert paragraph + boxed + [] == paragraph + boxed;
      }
    }

    /** Takes the section separator just emitted off the list again, if there is one. */
    method PopSeparator(before: nat, ghost start: seq<Element>, ghost paragraph: Content, ghost endsSection: bool)
      returns (trailing: Option<Element>)
      requires Valid() && before == |start| && paragraph.kind.Paragraph?
      requires tables.emitter.elements == Appended(start, [paragraph] + (if endsSection then [Separator] else []))
      modifies tables.emitter
      ensures tables.emitter.elements == Appended(start, [paragraph])
      ensures trailing.Some? <==> endsSection
      ensures trailing.Some? ==> trailing.value.content == Separator
    {
      var elements := tables.emitter.elements;
      trailing := None;
      if |elements| > before && elements[|elements| - 1].content.kind == SectionBreak {
        trailing := Some(elements[|elements| - 1]);
        tables.emitter.elements := elements[..|elements| - 1];
      }
    }

    method EmitTextboxTables(block: Node, path: Path, parent: Option<Path>) returns (ok: bool)
      requires Valid() && block.name == "p"
      modifies tables.emitter
      ensures Ran(old(tables.emitter.elements), tables.emitter.elements, ok,
                  CanAppend(policy, |old(tables.emitter.elements)|, BoxedContents(policy, block, path, parent)),
                  BoxedContents(policy, block, path, parent))
      decreases block, 1
    {
      ghost var start := tables.emitter.elements;
      BoxedFound(policy.view, block);
      ok := tables.EmitEntries(block, BoxedEntries(policy.view, block), path, parent);
      EmittedRan(policy, start, tables.emitter.elements, ok, BoxedContents(policy, block, path, parent));
    }

    /** A paragraph, and its section separator when it carries section properties. */
    method EmitParagraph(block: Node) returns (ok: bool)
      requires Valid()
      modifies tables.emitter
      ensures Emitted(policy, old(tables.emitter.elements), tables.emitter.elements, ok,
                      [ParagraphContent(policy, block)] + (if EndsSection(block) then [Separator] else []))
    {
      ghost var start := tables.emitter.elements;
      var content := ParagraphContent(policy, block);
      ok := tables.emitter.Emit(content);
      EmittedOne(policy, start, tables.emitter.elements, ok, content);
      ghost var sep := if EndsSection(block) then [Separator] else [];
      EmittedNothing(policy, start);
      EmittedThen(policy, start, start, tables.emitter.elements, ok, [], [content], sep);
      assert [] + ([content] + sep) == [content] + sep;
      if ok && EndsSection(block) {
        ghost var middle := tables.emitter.elements;
        assert [] + [content] == [content];
        ok := tables.emitter.Emit(Separator);
        EmittedOne(policy, middle, tables.emitter.elements, ok, Separator);
        EmittedThen(policy, start, middle, tables.emitter.elements, ok, [content], [Separator], []);
      } else {
        assert EndsSection(block) || [content] + sep == [content];
      }
    }

    /** Preservation layer: a block the extractor does not handle is kept as one opaque element. */
    method EmitBlockPreserving(block: Node, path: Path, parent: Option<Path>) returns (ok: bool)
      requires Valid() && block.name != "p"
      modifies this`diagnostics, tables.emitter
      ensures ok ==> diagnostics == old(diagnostics) + Unhandled(policy.view, block)
      ensures Ran(old(tables.emitter.elements), tables.emitter.elements, ok,
                  BlockFits(policy, |old(tables.emitter.elements)|, block, path, parent),
                  BlockContents(policy, block, path, parent))
      decreases block, 3
    {
      hide BlocksFit, BlocksContents, TableContents, OpaqueText, Clashes;
      var before := |diagnostics|;
      var unhandled;
      ok, unhandled := EmitBlockExtract(block, path, parent);
      if unhandled {
        ok := EmitContent(OpaqueContent(policy, block, path));
      } else if ok && Clashes(policy, block.name, diagnostics[before..]) {
        ok := false;
      }
    }

    method EmitContent(content: Content) returns (ok: bool)
      requires Valid()
      modifies tables.emitter
      ensures Ran(old(tables.emitter.elements), tables.emitter.elements, ok,
                  CanAppend(policy, |old(tables.emitter.elements)|, [content]), [content])
    {
      ghost var start := tables.emitter.elements;
      ok := tables.emitter.Emit(content);
      EmittedOne(policy, start, tables.emitter.elements, ok, content);
      EmittedRan(policy, start, tables.emitter.elements, ok, [content]);
    }

    /** Extraction layer, for blocks other than paragraphs. */
    method EmitBlockExtract(block: Node, path: Path, parent: Option<Path>) returns (ok: bool, unhandled: bool)
      requires Valid() && block.name != "p"
      modifies this`diagnostics, tables.emitter
      ensures unhandled <==> !Handled(block)
      ensures unhandled ==> ok && tables.emitter.elements == old(tables.emitter.elements)
      ensures ok ==> diagnostics == old(diagnostics) + Unhandled(policy.view, block)
      ensures !unhandled ==>
                && Ran(old(tables.emitter.elements), tables.emitter.elements, ok, ok, BlockContents(policy, block, path, parent))
                && (BlockFits(policy, |old(tables.emitter.elements)|, block, path, parent)
                    <==> ok && !Clashes(policy, block.name, Unhandled(policy.view, block)))
      decreases block, 2
    {
      hide BlocksFit, BlocksContents, TableContents, UnhandledIn;
      ok, unhandled := true, false;
      ghost var start := tables.emitter.elements;
      AppendedConcat(start, [], []);
      if block.name == "tbl" {
        ok := tables.EmitTable(block, path, parent);
        EmittedRan(policy, start, tables.emitter.elements, ok, TableContents(policy, block, path, parent));
      } else if block.name == "sectPr" {
        ok := EmitContent(Separator);
      } else if block.name == "altChunk" {
        ok := EmitContent(Content(AltChunk, None, None, None));
      } else if IsWrapper(block.name) {
        if Excluded(policy.view, block.name) {
          return;
        }
        if block.name == "sdt" {
          var content := SdtContent(block);
          if content.Some? {
            ok := EmitChildren(block.children[content.value], true, path + [Wrapper(block.name)], parent);
          }
        } else {
          ok := EmitChildren(block, true, path + [Wrapper(block.name)], parent);
        }
      } else if !IsMarker(block.name) {
        unhandled := true;
        diagnostics := diagnostics + [block.name];
      }
    }
  }
}
