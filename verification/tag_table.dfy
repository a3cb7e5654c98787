/**
 The tag table: `htmlTagsMap` lists, for each Sketch component in key
 order, the HTML tags it accepts. The passes flatten it into a list of
 `{html, sketchComponent}` entries and look a tag up with lodash `find`,
 which returns the first matching entry.
 */
module TagTable {
  import opened Js
  import opened ReactTree

  /** The sentinel component name of tags that must never be given a Sketch type. */
  const BLACKLIST := "BLACKLIST"

  /** One key of `htmlTagsMap`: a Sketch component and the tags it accepts. */
  datatype Mapping = Mapping(component: string, tags: seq<string>)

  /** The table itself, in object key order. */
  type TagsMap = seq<Mapping>

  /** One entry of the flattened table. */
  datatype TagEntry = TagEntry(html: string, sketchComponent: string)

  /** The entries contributed by one key, in tag order. */
  function Entries(mp: Mapping): (es: seq<TagEntry>)
    ensures |es| == |mp.tags|
    ensures forall i :: 0 <= i < |es| ==> es[i] == TagEntry(mp.tags[i], mp.component)
  {
    seq(|mp.tags|, i requires 0 <= i < |mp.tags| => TagEntry(mp.tags[i], mp.component))
  }

  /** Some key of the table lists the entry's tag under the entry's component. */
  predicate Lists(m: TagsMap, e: TagEntry) {
    exists j :: 0 <= j < |m| && m[j].component == e.sketchComponent && e.html in m[j].tags
  }

  /** A key lists an entry exactly when the head key or a later key lists it. */
  lemma ListsCons(m: TagsMap, e: TagEntry)
    requires m != []
    ensures Lists(m, e) <==> (m[0].component == e.sketchComponent && e.html in m[0].tags) || Lists(m[1..], e)
  {
    if Lists(m[1..], e) {
      var j :| 0 <= j < |m[1..]| && m[1..][j].component == e.sketchComponent && e.html in m[1..][j].tags;
      assert m[j + 1] == m[1..][j];
    }
    if Lists(m, e) {
      var j :| 0 <= j < |m| && m[j].component == e.sketchComponent && e.html in m[j].tags;
      if j > 0 {
        assert m[1..][j - 1] == m[j];
      }
    }
  }

  /** `HTML2SketchComponentsMap`: every key's entries, keys in order. */
  function Flatten(m: TagsMap): (r: seq<TagEntry>)
    ensures forall e :: e in r <==> Lists(m, e)
  {
    if m == [] then []
    else
      var r := Entries(m[0]) + Flatten(m[1..]);
      forall e ensures e in r <==> Lists(m, e) {
        ListsCons(m, e);
        if e in Entries(m[0]) {
          var i :| 0 <= i < |Entries(m[0])| && Entries(m[0])[i] == e;
        }
        if m[0].component == e.sketchComponent && e.html in m[0].tags {
          var i :| 0 <= i < |m[0].tags| && m[0].tags[i] == e.html;
          assert Entries(m[0])[i] == e;
        }
      }
      r
  }

  /** `flatten(Object.values(htmlTagsMap))`: the tag column of the flattened table. */
  function AllTags(m: TagsMap): (r: seq<string>)
    ensures |r| == |Flatten(m)|
    ensures forall i :: 0 <= i < |r| ==> r[i] == Flatten(m)[i].html
  {
    if m == [] then [] else m[0].tags + AllTags(m[1..])
  }

  /** lodash `find(table, {html: tag})`. */
  function Find(t: seq<TagEntry>, tag: string): (r: Option<TagEntry>)
    ensures r.Some? ==> r.value in t && r.value.html == tag
    ensures r.None? <==> forall i :: 0 <= i < |t| ==> t[i].html != tag
  {
    if t == [] then None
    else if t[0].html == tag then Some(t[0])
    else Find(t[1..], tag)
  }

  /** `getSketchComponentType(node)`: the first entry for the node's type; `null` for raw content. */
  function ComponentType(m: TagsMap, n: Node): (r: Option<TagEntry>)
    ensures n.Content? ==> r.None?
    ensures n.Element? ==>
      r == (match FirstMapping(m, n.tag)
            case None => None
            case Some(i) => Some(TagEntry(n.tag, m[i].component)))
  {
    if n.Element? then
      FindFirstMapping(m, n.tag);
      Find(Flatten(m), n.tag)
    else None
  }

  /** Reference definition: the index of the first key of the table that accepts `tag`. */
  function FirstMapping(m: TagsMap, tag: string): (r: Option<nat>)
    ensures r.Some? ==> r.value < |m| && tag in m[r.value].tags
    ensures r.Some? ==> forall j :: 0 <= j < r.value ==> tag !in m[j].tags
    ensures r.None? ==> forall j :: 0 <= j < |m| ==> tag !in m[j].tags
  {
    if m == [] then None
    else if tag in m[0].tags then Some(0)
    else match FirstMapping(m[1..], tag)
      case None => None
      case Some(i) => Some(i + 1)
  }

  lemma FindAppend(a: seq<TagEntry>, b: seq<TagEntry>, tag: string)
    ensures Find(a + b, tag) == if Find(a, tag).Some? then Find(a, tag) else Find(b, tag)
  {
    if a != [] {
      assert (a + b)[1..] == a[1..] + b;
      FindAppend(a[1..], b, tag);
    } else {
      assert a + b == b;
    }
  }

  lemma FindEntries(mp: Mapping, tag: string)
    ensures Find(Entries(mp), tag) == if tag in mp.tags then Some(TagEntry(tag, mp.component)) else None
  {
    var es := Entries(mp);
    if tag in mp.tags {
      var r := Find(es, tag);
      assert r.Some? by {
        var i :| 0 <= i < |mp.tags| && mp.tags[i] == tag;
        assert es[i].html == tag;
      }
    }
  }

  /** Lookup in the flattened table picks the first key, in key order, whose tag list holds `tag`. */
  lemma {:induction false} FindFirstMapping(m: TagsMap, tag: string)
    ensures Find(Flatten(m), tag) ==
      match FirstMapping(m, tag)
      case None => None
      case Some(i) => Some(TagEntry(tag, m[i].component))
  {
    if m != [] {
      FindAppend(Entries(m[0]), Flatten(m[1..]), tag);
      FindEntries(m[0], tag);
      FindFirstMapping(m[1..], tag);
    }
  }

  /** `isHTMLnode` and lookup agree: a tag is listed in the table exactly when `find` returns an entry for it. */
  lemma {:induction false} ListedIffFound(m: TagsMap, tag: string)
    ensures tag in AllTags(m) <==> Find(Flatten(m), tag).Some?
  {
    FindFirstMapping(m, tag);
    ListedIffSomeMapping(m, tag);
  }

  lemma {:induction false} ListedIffSomeMapping(m: TagsMap, tag: string)
    ensures tag in AllTags(m) <==> exists j :: 0 <= j < |m| && tag in m[j].tags
  {
    if m != [] {
      ListedIffSomeMapping(m[1..], tag);
      if tag in AllTags(m[1..]) {
        var j :| 0 <= j < |m[1..]| && tag in m[1..][j].tags;
        assert tag in m[j + 1].tags;
      }
      if exists j :: 0 <= j < |m| && tag in m[j].tags {
        var j :| 0 <= j < |m| && tag in m[j].tags;
        if j > 0 {
          assert tag in m[1..][j - 1].tags;
        }
      }
    }
  }
}
