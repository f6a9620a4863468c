/**
 * The editor state of the builder page: the ordered list of blocks and the id of the selected
 * block, with the handlers that append a block with defaults, merge an update into the blocks
 * with a given id, delete the blocks with a given id, and select a block.
 *
 * Each handler replaces the list by a new one computed with a spread, a `map` or a `filter`;
 * those computations are the functions below, and the state is a class whose methods
 * reassign its fields.
 */
module Builder {
  import opened Wrappers
  import opened Chars
  import opened Types

  /** The content a new block starts with. */
  function DefaultContent(t: BlockType): (r: string)
    ensures t == TextBlock ==> r == "Введите ваш текст здесь"
    ensures t == ImageBlock ==> r == "https://via.placeholder.com/600x200"
    ensures t == ButtonBlock ==> r == "Нажмите"
    ensures r != "" <==> t in {TextBlock, ImageBlock, ButtonBlock}
  {
    match t
    case TextBlock => "Введите ваш текст здесь"
    case ImageBlock => "https://via.placeholder.com/600x200"
    case ButtonBlock => "Нажмите"
    case DividerBlock => ""
    case SpacerBlock => ""
    case _ => ""
  }

  /** The styles a new block starts with: fixed records for text and buttons, `{}` otherwise. */
  function DefaultStyles(t: BlockType): (r: Styles)
    ensures t == TextBlock ==> r.Keys == {"fontSize", "color", "textAlign", "padding"}
    ensures t == ButtonBlock ==> r.Keys == {"fontSize", "color", "backgroundColor", "padding"}
    ensures t in {TextBlock, ButtonBlock} ==> r["fontSize"] == "16px"
    ensures t == TextBlock ==> r["color"] == "#000000" && r["textAlign"] == "left" && r["padding"] == "10px"
    ensures t == ButtonBlock ==> r["color"] == "#ffffff" && r["backgroundColor"] == "#007bff" && r["padding"] == "10px 20px"
    ensures t !in {TextBlock, ButtonBlock} ==> r == map[]
  {
    match t
    case TextBlock =>
      map["fontSize" := "16px", "color" := "#000000", "textAlign" := "left", "padding" := "10px"]
    case ButtonBlock =>
      map["fontSize" := "16px", "color" := "#ffffff", "backgroundColor" := "#007bff", "padding" := "10px 20px"]
    case _ => map[]
  }

  /** The id of a block created at time `now` (milliseconds): `block-<now>`. */
  function BlockId(now: nat): string {
    "block-" + NatToString(now)
  }

  /** Blocks created at different times get different ids. */
  lemma BlockIdInjective(m: nat, n: nat)
    requires BlockId(m) == BlockId(n)
    ensures m == n
  {
    var prefix := "block-";
    assert BlockId(m)[|prefix|..] == NatToString(m);
    assert BlockId(n)[|prefix|..] == NatToString(n);
    NatToStringInjective(m, n);
  }

  /** A freshly added block: static, without a field descriptor, with the defaults of its type. */
  function NewBlock(id: string, t: BlockType): (b: Block)
    ensures b.id == id && b.blockType == t
    ensures b.content == DefaultContent(t) && b.styles == Some(DefaultStyles(t))
    ensures !b.isDynamic && b.dynamicField.None?
  {
    Block(id, t, DefaultContent(t), None, None, None, None, None, None, None, false, None, Some(DefaultStyles(t)))
  }

  /** `blocks.map(block => block.id === id ? {...block, ...updates} : block)`. */
  function UpdateById(blocks: seq<Block>, id: string, u: BlockUpdate): (r: seq<Block>)
    ensures |r| == |blocks|
    ensures forall i :: 0 <= i < |blocks| && blocks[i].id != id ==> r[i] == blocks[i]
    ensures forall i :: 0 <= i < |blocks| && blocks[i].id == id ==> r[i] == Merge(blocks[i], u)
  {
    seq(|blocks|, i requires 0 <= i < |blocks| => if blocks[i].id == id then Merge(blocks[i], u) else blocks[i])
  }

  /** `blocks.filter(block => block.id !== id)`. */
  function RemoveById(blocks: seq<Block>, id: string): (r: seq<Block>)
    ensures |r| <= |blocks|
    ensures forall k :: 0 <= k < |r| ==> r[k].id != id
  {
    if blocks == [] then []
    else
      var rest := RemoveById(blocks[..|blocks| - 1], id);
      var b := blocks[|blocks| - 1];
      if b.id != id then rest + [b] else rest
  }

  /** `blocks.find(block => block.id === selectedBlockId)`; no block matches a missing selection. */
  function FindById(blocks: seq<Block>, selected: Option<string>): (r: Option<Block>)
    ensures r.Some? ==> selected.Some? && r.value in blocks && r.value.id == selected.value
    ensures selected.None? ==> r.None?
  {
    if selected.None? || blocks == [] then None
    else if blocks[0].id == selected.value then Some(blocks[0])
    else FindById(blocks[1..], selected)
  }

  /** Position `i` holds the first block with id `id`. */
  predicate FirstWithId(blocks: seq<Block>, id: string, i: int) {
    0 <= i < |blocks| && blocks[i].id == id && forall j :: 0 <= j < i ==> blocks[j].id != id
  }

  /**
   * The found block is the first one whose id is the selected id, and nothing is found
   * exactly when there is no selection or no block has that id.
   */
  lemma {:induction false} FindByIdFirst(blocks: seq<Block>, selected: Option<string>)
    ensures FindById(blocks, selected).Some? ==>
      selected.Some? && exists i :: FirstWithId(blocks, selected.value, i) && blocks[i] == FindById(blocks, selected).value
    ensures FindById(blocks, selected).None? <==>
      selected.None? || forall i :: 0 <= i < |blocks| ==> blocks[i].id != selected.value
    decreases |blocks|
  {
    if selected.Some? && blocks != [] && blocks[0].id != selected.value {
      var rest := blocks[1..];
      FindByIdFirst(rest, selected);
      var r := FindById(rest, selected);
      if r.Some? {
        var i :| FirstWithId(rest, selected.value, i) && rest[i] == r.value;
        assert blocks[i + 1] == r.value;
        forall j | 0 <= j < i + 1
          ensures blocks[j].id != selected.value
        {
          if j > 0 {
            assert blocks[j] == rest[j - 1];
          }
        }
        assert FirstWithId(blocks, selected.value, i + 1);
      } else {
        forall i | 0 <= i < |blocks|
          ensures blocks[i].id != selected.value
        {
          if i > 0 {
            assert blocks[i] == rest[i - 1];
          }
        }
      }
    }
  }

  /** Merging the same update twice is merging it once. */
  lemma MergeIdempotent(b: Block, u: BlockUpdate)
    ensures Merge(Merge(b, u), u) == Merge(b, u)
  {
  }

  /** Applying the same update by id twice is applying it once, whether or not it changes the id. */
  lemma UpdateByIdIdempotent(blocks: seq<Block>, id: string, u: BlockUpdate)
    ensures UpdateById(UpdateById(blocks, id, u), id, u) == UpdateById(blocks, id, u)
  {
    var once := UpdateById(blocks, id, u);
    var twice := UpdateById(once, id, u);
    forall i | 0 <= i < |blocks|
      ensures twice[i] == once[i]
    {
      MergeIdempotent(blocks[i], u);
    }
  }

  /** An update that sets no property leaves the list as it is. */
  lemma UpdateByIdNoUpdate(blocks: seq<Block>, id: string)
    ensures UpdateById(blocks, id, NoUpdate) == blocks
  {
    var r := UpdateById(blocks, id, NoUpdate);
    forall i | 0 <= i < |blocks|
      ensures r[i] == blocks[i]
    {
    }
  }

  /** Filtering a concatenation filters each part: the remaining blocks keep their order. */
  lemma {:induction false} RemoveByIdConcat(a: seq<Block>, b: seq<Block>, id: string)
    ensures RemoveById(a + b, id) == RemoveById(a, id) + RemoveById(b, id)
    decreases |b|
  {
    if b != [] {
      var ab := a + b;
      assert ab[..|ab| - 1] == a + b[..|b| - 1];
      assert ab[|ab| - 1] == b[|b| - 1];
      RemoveByIdConcat(a, b[..|b| - 1], id);
    } else {
      assert a + b == a;
    }
  }

  /** One block is kept exactly when its id differs. */
  lemma RemoveByIdSingle(b: Block, id: string)
    ensures RemoveById([b], id) == if b.id != id then [b] else []
  {
    assert [b][..0] == [];
  }

  /** A block is in the filtered list exactly when it was in the list and has another id. */
  lemma {:induction false} RemoveByIdMembership(blocks: seq<Block>, id: string, x: Block)
    ensures x in RemoveById(blocks, id) <==> x in blocks && x.id != id
  {
    if blocks != [] {
      var init := blocks[..|blocks| - 1];
      RemoveByIdMembership(init, id, x);
      assert blocks == init + [blocks[|blocks| - 1]];
    }
  }

  /** Deleting an id that no block has leaves the list as it is. */
  lemma {:induction false} RemoveAbsentId(blocks: seq<Block>, id: string)
    requires forall k :: 0 <= k < |blocks| ==> blocks[k].id != id
    ensures RemoveById(blocks, id) == blocks
  {
    if blocks != [] {
      var init := blocks[..|blocks| - 1];
      RemoveAbsentId(init, id);
      assert blocks == init + [blocks[|blocks| - 1]];
    }
  }

  /** Removing the blocks with one id does not change which block another id selects. */
  lemma {:induction false} FindAfterRemove(blocks: seq<Block>, id: string, selected: Option<string>)
    requires selected != Some(id)
    ensures FindById(RemoveById(blocks, id), selected) == FindById(blocks, selected)
    decreases |blocks|
  {
    if selected.Some? && blocks != [] {
      var first := blocks[0];
      var rest := blocks[1..];
      assert blocks == [first] + rest;
      RemoveByIdConcat([first], rest, id);
      RemoveByIdSingle(first, id);
      FindAfterRemove(rest, id, selected);
      var removed := RemoveById(blocks, id);
      if first.id != id {
        assert removed == [first] + RemoveById(rest, id);
        assert removed[0] == first;
        assert removed[1..] == RemoveById(rest, id);
      } else {
        assert removed == RemoveById(rest, id);
        assert first.id != selected.value;
      }
    }
  }

  /** Appending a block does not change the block an id already selects. */
  lemma {:induction false} FindAfterAppend(blocks: seq<Block>, b: Block, selected: Option<string>)
    requires FindById(blocks, selected).Some?
    ensures FindById(blocks + [b], selected) == FindById(blocks, selected)
    decreases |blocks|
  {
    var all := blocks + [b];
    assert all[0] == blocks[0];
    if blocks[0].id != selected.value {
      assert all[1..] == blocks[1..] + [b];
      FindAfterAppend(blocks[1..], b, selected);
    }
  }

  /** The builder page's state. */
  class BuilderState {
    var blocks: seq<Block>
    var selectedBlockId: Option<string>

    /** An empty page with nothing selected. */
    constructor()
      ensures blocks == [] && selectedBlockId == None
    {
      blocks := [];
      selectedBlockId := None;
    }

    /** The block the properties panel edits, if any. */
    function SelectedBlock(): Option<Block>
      reads this
    {
      FindById(blocks, selectedBlockId)
    }

    /** Appends a block of type `t` created at time `now`; the selection is unchanged. */
    method AddBlock(now: nat, t: BlockType)
      modifies this
      ensures blocks == old(blocks) + [NewBlock(BlockId(now), t)]
      ensures selectedBlockId == old(selectedBlockId)
      ensures old(SelectedBlock()).Some? ==> SelectedBlock() == old(SelectedBlock())
    {
      var newBlock := NewBlock(BlockId(now), t);
      if FindById(blocks, selectedBlockId).Some? {
        FindAfterAppend(blocks, newBlock, selectedBlockId);
      }
      blocks := blocks + [newBlock];
    }

    /** Merges `updates` into every block with id `id`; the selection is unchanged. */
    method UpdateBlock(id: string, updates: BlockUpdate)
      modifies this
      ensures blocks == UpdateById(old(blocks), id, updates)
      ensures selectedBlockId == old(selectedBlockId)
    {
      blocks := UpdateById(blocks, id, updates);
    }

    /** Removes every block with id `id`, and clears the selection when it was that id. */
    method DeleteBlock(id: string)
      modifies this
      ensures blocks == RemoveById(old(blocks), id)
      ensures selectedBlockId == if old(selectedBlockId) == Some(id) then None else old(selectedBlockId)
      ensures old(selectedBlockId) != Some(id) ==> SelectedBlock() == old(SelectedBlock())
      ensures SelectedBlock().Some? ==> SelectedBlock().value.id != id
    {
      if selectedBlockId != Some(id) {
        FindAfterRemove(blocks, id, selectedBlockId);
      }
      blocks := RemoveById(blocks, id);
      if selectedBlockId == Some(id) {
        selectedBlockId := None;
      }
      FindByIdFirst(blocks, selectedBlockId);
      if SelectedBlock().Some? {
        var i :| FirstWithId(blocks, selectedBlockId.value, i) && blocks[i] == SelectedBlock().value;
      }
    }

    /** Selects the block with id `id`, or nothing. */
    method SelectBlock(id: Option<string>)
      modifies this
      ensures selectedBlockId == id && blocks == old(blocks)
    {
      selectedBlockId := id;
    }
  }
}
