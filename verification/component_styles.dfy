/**
 Style compilation for one element: the selector list `[type, ...classNames]`
 without falsy entries, and the left-to-right merge of the stylesheet
 entries those selectors name, in which later selectors win.
 */
module CompileComponentStyles {
  import opened Js

  /** A global stylesheet: selector to style object. */
  type Stylesheet = map<string, Style>

  /** `s.split(' ')`: the pieces between single spaces, empty pieces included. */
  function Split(s: string): (parts: seq<string>)
    ensures |parts| >= 1
    ensures forall i :: 0 <= i < |parts| ==> ' ' !in parts[i]
  {
    if s == [] then [""]
    else
      var rest := Split(s[1..]);
      if s[0] == ' ' then [""] + rest
      else [[s[0]] + rest[0]] + rest[1..]
  }

  /** `parts.join(' ')`, the inverse of `Split`. */
  function Join(parts: seq<string>): string
    requires |parts| >= 1
  {
    if |parts| == 1 then parts[0] else parts[0] + " " + Join(parts[1..])
  }

  lemma JoinConsChar(c: char, parts: seq<string>)
    requires |parts| >= 1
    ensures Join([[c] + parts[0]] + parts[1..]) == [c] + Join(parts)
  {
    var q := [[c] + parts[0]] + parts[1..];
    assert |q| == |parts| && q[0] == [c] + parts[0];
    if |parts| > 1 {
      assert q[1..] == parts[1..];
      JoinCons(q);
      JoinCons(parts);
      ConcatAssoc([c], parts[0], " " + Join(parts[1..]));
    }
  }

  lemma JoinCons(parts: seq<string>)
    requires |parts| > 1
    ensures Join(parts) == parts[0] + (" " + Join(parts[1..]))
  {
  }

  lemma ConcatAssoc(a: string, b: string, c: string)
    ensures (a + b) + c == a + (b + c)
  {
  }

  /** Joining the pieces of a split gives back the string. */
  lemma {:induction false} JoinSplit(s: string)
    ensures Join(Split(s)) == s
  {
    if s != [] {
      var rest := Split(s[1..]);
      JoinSplit(s[1..]);
      if s[0] == ' ' {
        assert ([""] + rest)[1..] == rest;
      } else {
        JoinConsChar(s[0], rest);
      }
      assert [s[0]] + s[1..] == s;
    }
  }

  /** A space-free word is split off whole from the front. */
  lemma {:induction false} SplitWord(w: string, t: Option<string>)
    requires ' ' !in w
    ensures Split(w + (if t.Some? then " " + t.value else "")) ==
      if t.Some? then [w] + Split(t.value) else [w]
  {
    var tail := if t.Some? then " " + t.value else "";
    if w == [] {
      assert w + tail == tail;
      if t.Some? {
        assert tail[1..] == t.value;
      }
    } else {
      assert (w + tail)[1..] == w[1..] + tail;
      SplitWord(w[1..], t);
      assert [w[0]] + w[1..] == w;
    }
  }

  /** Splitting a join of space-free pieces gives back the pieces. */
  lemma {:induction false} SplitJoin(parts: seq<string>)
    requires |parts| >= 1
    requires forall i :: 0 <= i < |parts| ==> ' ' !in parts[i]
    ensures Split(Join(parts)) == parts
  {
    if |parts| == 1 {
      SplitWord(parts[0], None);
      assert parts[0] + "" == parts[0];
      assert parts == [parts[0]];
    } else {
      SplitJoin(parts[1..]);
      SplitWord(parts[0], Some(Join(parts[1..])));
      assert Join(parts) == parts[0] + (" " + Join(parts[1..]));
      assert [parts[0]] + parts[1..] == parts;
    }
  }

  /** lodash `compact` on a list of strings: the non-empty ones, in order. */
  function Compact(xs: seq<string>): (r: seq<string>)
    ensures |r| <= |xs|
    ensures forall x :: x in r <==> x in xs && x != ""
    ensures forall i :: 0 <= i < |r| ==> r[i] != ""
  {
    if xs == [] then []
    else (if xs[0] != "" then [xs[0]] else []) + Compact(xs[1..])
  }

  /** `compact` distributes over concatenation, so the kept strings stay in their order. */
  lemma {:induction false} CompactAppend(a: seq<string>, b: seq<string>)
    ensures Compact(a + b) == Compact(a) + Compact(b)
  {
    if a == [] {
      assert a + b == b;
    } else {
      var ab := a + b;
      assert ab[0] == a[0] && ab[1..] == a[1..] + b;
      CompactAppend(a[1..], b);
      var head: seq<string> := if a[0] != "" then [a[0]] else [];
      assert Compact(ab) == head + Compact(ab[1..]);
      assert Compact(a) == head + Compact(a[1..]);
      assert head + (Compact(a[1..]) + Compact(b)) == (head + Compact(a[1..])) + Compact(b);
    }
  }

  /** A list without empty strings passes through `compact` unchanged. */
  lemma {:induction false} CompactNoEmpty(xs: seq<string>)
    requires forall i :: 0 <= i < |xs| ==> xs[i] != ""
    ensures Compact(xs) == xs
  {
    if xs != [] {
      CompactNoEmpty(xs[1..]);
      assert [xs[0]] + xs[1..] == xs;
    }
  }

  /**
   `getComponentClasses`: the element type followed by its space-separated
   class names, without empty entries. Class names are only read when the
   type is truthy.
   */
  function Classes(tag: string, className: Option<string>): (sels: seq<string>)
    ensures forall i :: 0 <= i < |sels| ==> sels[i] != ""
    ensures tag == "" ==> sels == []
    ensures tag != "" ==> |sels| >= 1 && sels[0] == tag
    ensures tag != "" && className.Some? && className.value != "" ==>
      sels[1..] == Compact(Split(className.value))
    ensures (className.None? || className.value == "") ==> sels == Compact([tag])
  {
    if tag != "" && className.Some? && className.value != "" then
      var r := Compact([tag] + Split(className.value));
      assert ([tag] + Split(className.value))[1..] == Split(className.value);
      r
    else
      Compact([tag])
  }

  /** `stylesheet[sel]` defines the property `k`. */
  predicate Defines(sheet: Stylesheet, sel: string, k: string) {
    sel in sheet && k in sheet[sel]
  }

  /** Some selector of the list has an entry that defines `k`. */
  predicate DefinedBySome(sheet: Stylesheet, sels: seq<string>, k: string) {
    exists j :: 0 <= j < |sels| && Defines(sheet, sels[j], k)
  }

  /** `stylesheet[sel]` as an `Object.assign` source: a missing entry contributes nothing. */
  function Entry(sheet: Stylesheet, sel: string): Style {
    if sel in sheet then sheet[sel] else map[]
  }

  /** `Object.assign({}, ...sels.map(s => stylesheet[s]))`. */
  function Cascade(sheet: Stylesheet, sels: seq<string>): (r: Style)
    ensures forall k :: k in r <==> DefinedBySome(sheet, sels, k)
  {
    if sels == [] then map[]
    else
      var init := sels[..|sels| - 1];
      var r := Assign(Cascade(sheet, init), Entry(sheet, sels[|sels| - 1]));
      assert forall j :: 0 <= j < |init| ==> init[j] == sels[j];
      r
  }

  /** For each property, the merged style holds the value of the last selector whose entry defines it. */
  lemma {:induction false} CascadeLastWins(sheet: Stylesheet, sels: seq<string>, k: string, j: nat)
    requires j < |sels| && Defines(sheet, sels[j], k)
    requires forall j' :: j < j' < |sels| ==> !Defines(sheet, sels[j'], k)
    ensures k in Cascade(sheet, sels) && Cascade(sheet, sels)[k] == sheet[sels[j]][k]
  {
    var n := |sels|;
    var init := sels[..n - 1];
    assert Cascade(sheet, sels) == Assign(Cascade(sheet, init), Entry(sheet, sels[n - 1]));
    if j < n - 1 {
      assert !Defines(sheet, sels[n - 1], k);
      assert forall j' :: j < j' < |init| ==> init[j'] == sels[j'];
      CascadeLastWins(sheet, init, k, j);
      assert init[j] == sels[j];
    }
  }

  /**
   `getComponentStyles`: the merged stylesheet entries of the element's
   selectors, in a fresh object.
   */
  function ComponentStyles(sheet: Stylesheet, tag: string, className: Option<string>): (r: Style)
    ensures forall k :: k in r <==> DefinedBySome(sheet, Classes(tag, className), k)
    ensures (forall j :: 0 <= j < |Classes(tag, className)| ==> Classes(tag, className)[j] !in sheet) ==> r == map[]
  {
    Cascade(sheet, Classes(tag, className))
  }
}
