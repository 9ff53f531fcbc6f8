/** The pure logic of `App.tsx`: the mention menu built from a fixed
    registry, the two inline items a menu click inserts, and the mention
    list `editorChanged` folds out of the document. */
module App {
  import opened Optional
  import opened Document
  import Schema

  /** A mention target of the registry. */
  datatype RegistryEntry = RegistryEntry(id: string, mentionType: string, mentionId: string, title: string)

  /** The registry `getMentionMenuItems` maps over, in this order. */
  const Registry: seq<RegistryEntry> := [
    RegistryEntry("mention1", "task", "taskId", "Hello Task"),
    RegistryEntry("mention2", "user", "userId", "John"),
    RegistryEntry("mention3", "user", "userId2", "Mary")
  ]

  /** A menu item: its `title` and the registry entry its click inserts. */
  datatype MenuItem = MenuItem(title: string, entry: RegistryEntry)

  /** The label `${mentionType}/${title}`. */
  function Label(e: RegistryEntry): string {
    e.mentionType + "/" + e.title
  }

  /** `mentions.map(...)`: one item per registry entry, in registry order,
      titled with the entry's label. */
  function MenuItems(registry: seq<RegistryEntry>): (r: seq<MenuItem>)
    ensures |r| == |registry|
    ensures forall i :: 0 <= i < |registry| ==> r[i].entry == registry[i]
    ensures forall i :: 0 <= i < |registry| ==> r[i].title == registry[i].mentionType + "/" + registry[i].title
  {
    if |registry| == 0 then [] else [MenuItem(Label(registry[0]), registry[0])] + MenuItems(registry[1..])
  }

  /** The props stamped on an inserted mention: the entry's fields plus the
      clock reading `timestamp`, which is a parameter of the model. */
  function Stamp(e: RegistryEntry, timestamp: string): MentionProps {
    MentionProps(e.id, e.mentionType, e.mentionId, e.title, timestamp)
  }

  /** `onItemClick`: the inline items handed to `insertInlineContent`, a
      `mention` carrying the entry and the timestamp, then the plain string
      `" "` (an unstyled text run). */
  function OnItemClick(item: MenuItem, timestamp: string): (r: seq<Inline>)
    ensures |r| == 2
    ensures r[0].Custom? && r[0].kind == "mention" && r[0].props.Some?
    ensures r[0].props.value.id == item.entry.id && r[0].props.value.mentionType == item.entry.mentionType
    ensures r[0].props.value.mentionId == item.entry.mentionId && r[0].props.value.title == item.entry.title
    ensures r[0].props.value.timestamp == timestamp
    ensures r[1] == StyledText(" ", map[])
  {
    [Custom("mention", Some(Stamp(item.entry, timestamp))), StyledText(" ", map[])]
  }

  /** A mention's props keyed by the prop names of the `mention` schema. */
  function PropMap(p: MentionProps): map<string, string> {
    map["id" := p.id, "mentionType" := p.mentionType, "mentionId" := p.mentionId,
        "title" := p.title, "timestamp" := p.timestamp]
  }

  /** An inserted mention sets every prop the `mention` schema declares, each
      to the registry entry's own field or the click's timestamp, so no prop
      is left to its `"Unknown"` default. */
  lemma InsertedPropsCoverMentionSchema(item: MenuItem, timestamp: string)
    ensures var props := PropMap(OnItemClick(item, timestamp)[0].props.value);
      && props.Keys == Schema.MentionSpec.propDefaults.Keys
      && props["id"] == item.entry.id
      && props["mentionType"] == item.entry.mentionType
      && props["mentionId"] == item.entry.mentionId
      && props["title"] == item.entry.title
      && props["timestamp"] == timestamp
  {
  }

  /** The item filter of `editorChanged`: type `mention` with defined props.
      Text runs, whatever their styles, and links never qualify. */
  predicate IsMention(x: Inline) {
    x.Custom? && x.kind == "mention" && x.props.Some?
  }

  /** `content.filter(IsMention).map(item => item.props)`. */
  function MentionsIn(items: seq<Inline>): (r: seq<MentionProps>)
    ensures |r| <= |items|
  {
    if |items| == 0 then []
    else (if IsMention(items[0]) then [items[0].props.value] else []) + MentionsIn(items[1..])
  }

  /** What one top-level block adds to the list: nothing when its content is
      undefined; its children are not looked at. */
  function BlockMentions(b: Block): seq<MentionProps> {
    match b.content
    case None => []
    case Some(items) => MentionsIn(items)
  }

  /** The reference list: the blocks' contributions concatenated in document
      order. */
  function Mentions(doc: seq<Block>): seq<MentionProps> {
    if |doc| == 0 then [] else BlockMentions(doc[0]) + Mentions(doc[1..])
  }

  lemma {:induction false} MentionsInAppend(a: seq<Inline>, b: seq<Inline>)
    ensures MentionsIn(a + b) == MentionsIn(a) + MentionsIn(b)
  {
    if |a| > 0 {
      assert (a + b)[1..] == a[1..] + b;
      MentionsInAppend(a[1..], b);
    } else {
      assert a + b == b;
    }
  }

  lemma {:induction false} MentionsAppend(a: seq<Block>, b: seq<Block>)
    ensures Mentions(a + b) == Mentions(a) + Mentions(b)
  {
    if |a| > 0 {
      assert (a + b)[1..] == a[1..] + b;
      MentionsAppend(a[1..], b);
    } else {
      assert a + b == b;
    }
  }

  /** `editorChanged`: the `reduce` over the top-level blocks, pushing each
      block's mention props onto the accumulator. */
  method EditorChanged(doc: seq<Block>) returns (mentions: seq<MentionProps>)
    ensures mentions == Mentions(doc)
  {
    mentions := [];
    for k := 0 to |doc|
      invariant mentions == Mentions(doc[..k])
    {
      MentionsAppend(doc[..k], [doc[k]]);
      assert doc[..k + 1] == doc[..k] + [doc[k]];
      mentions := mentions + BlockMentions(doc[k]);
    }
    assert doc[..|doc|] == doc;
  }

  /** A mention's props are in a block's list exactly when some item of the
      block is a `mention` with those props. */
  lemma {:induction false} MentionsInMembership(items: seq<Inline>, p: MentionProps)
    ensures p in MentionsIn(items) <==> exists j :: 0 <= j < |items| && items[j] == Custom("mention", Some(p))
  {
    if |items| > 0 {
      MentionsInMembership(items[1..], p);
      if p in MentionsIn(items[1..]) {
        var j :| 0 <= j < |items[1..]| && items[1..][j] == Custom("mention", Some(p));
        assert items[j + 1] == Custom("mention", Some(p));
      }
      if exists j :: 0 <= j < |items| && items[j] == Custom("mention", Some(p)) {
        var j :| 0 <= j < |items| && items[j] == Custom("mention", Some(p));
        if j > 0 {
          assert items[1..][j - 1] == Custom("mention", Some(p));
        }
      }
    }
  }

  /** A document whose inline items are all text runs yields no mentions,
      whatever styles (the `comment` mark included) the runs carry. */
  lemma {:induction false} TextOnlyYieldsNothing(items: seq<Inline>)
    requires forall j :: 0 <= j < |items| ==> items[j].StyledText?
    ensures MentionsIn(items) == []
  {
    if |items| > 0 {
      TextOnlyYieldsNothing(items[1..]);
    }
  }

  /** Only the top-level blocks' own content is read: documents that agree
      on it yield the same list, whatever their nested children, ids, types
      and block props. */
  lemma {:induction false} ChildrenAreNotVisited(doc: seq<Block>, other: seq<Block>)
    requires |doc| == |other|
    requires forall i :: 0 <= i < |doc| ==> doc[i].content == other[i].content
    ensures Mentions(doc) == Mentions(other)
  {
    if |doc| > 0 {
      ChildrenAreNotVisited(doc[1..], other[1..]);
    }
  }

  /** A block with undefined content contributes nothing, wherever it sits. */
  lemma UndefinedContentContributesNothing(before: seq<Block>, b: Block, after: seq<Block>)
    requires b.content.None?
    ensures Mentions(before + [b] + after) == Mentions(before) + Mentions(after)
  {
    MentionsAppend(before + [b], after);
    MentionsAppend(before, [b]);
  }

  /** Inserting a menu item's two inline items at position `p` of a block's
      content adds exactly that item's stamped props to the block's list, at
      the matching place. */
  lemma InsertionAddsOneMention(content: seq<Inline>, p: nat, item: MenuItem, timestamp: string)
    requires p <= |content|
    ensures MentionsIn(content[..p] + OnItemClick(item, timestamp) + content[p..])
         == MentionsIn(content[..p]) + [Stamp(item.entry, timestamp)] + MentionsIn(content[p..])
  {
    var ins := OnItemClick(item, timestamp);
    MentionsInAppend(content[..p] + ins, content[p..]);
    MentionsInAppend(content[..p], ins);
    assert MentionsIn(ins) == [Stamp(item.entry, timestamp)] by {
      assert ins[1..][1..] == [];
    }
  }

  /** Inserting into an otherwise mention-free document and extracting
      yields the inserted mention alone, from which the registry entry is
      recovered. */
  lemma InsertThenExtract(b: Block, item: MenuItem, timestamp: string)
    requires b.content == Some(OnItemClick(item, timestamp))
    ensures Mentions([b]) == [Stamp(item.entry, timestamp)]
    ensures var m := Mentions([b])[0];
      RegistryEntry(m.id, m.mentionType, m.mentionId, m.title) == item.entry
  {
    InsertionAddsOneMention([], 0, item, timestamp);
    assert [] + OnItemClick(item, timestamp) + [] == OnItemClick(item, timestamp);
  }

  /** The first `/` of a label sits right after a type that has none. */
  lemma FirstSlash(e: RegistryEntry)
    requires '/' !in e.mentionType
    ensures Label(e)[|e.mentionType|] == '/'
    ensures forall k :: 0 <= k < |e.mentionType| ==> Label(e)[k] != '/'
  {
  }

  /** A label splits back into its type and title at its first `/` when the
      type has no `/`, so two such entries share a label only when they share
      both type and title. */
  lemma LabelDeterminesTypeAndTitle(a: RegistryEntry, b: RegistryEntry)
    requires '/' !in a.mentionType && '/' !in b.mentionType
    requires Label(a) == Label(b)
    ensures a.mentionType == b.mentionType && a.title == b.title
  {
    var la, lb := Label(a), Label(b);
    FirstSlash(a);
    FirstSlash(b);
    if |a.mentionType| != |b.mentionType| {
      assert false;
    } else {
      assert a.mentionType == la[..|a.mentionType|] == lb[..|b.mentionType|] == b.mentionType;
      assert a.title == la[|a.mentionType| + 1..] == lb[|b.mentionType| + 1..] == b.title;
    }
  }

  /** The menu the app shows: three items, in registry order. */
  lemma RegistryMenu()
    ensures |MenuItems(Registry)| == 3
    ensures MenuItems(Registry)[0].title == "task/Hello Task"
    ensures MenuItems(Registry)[1].title == "user/John"
    ensures MenuItems(Registry)[2].title == "user/Mary"
  {
  }
}
