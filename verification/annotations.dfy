/**
 * The annotation formatter of dist/annotations.js: it turns the per-file
 * uncovered items into check-run annotations, one per item ("detailed") or
 * one per file with a sentence per coverage type ("summarize"). The
 * workspace prefix stripped from every path is a parameter.
 */
module Annotations {
  import opened Wrappers
  import opened Strings
  import opened JsNumbers
  import opened CoverageTypes
  import opened Assoc

  // ---------------------------------------------------------------------------
  // Type names and paths
  // ---------------------------------------------------------------------------

  /** `pluralToSingularMap[t] ?? t`: the three known plurals lose their plural ending, anything else is kept. */
  function Singular(t: string): (r: string)
    ensures |r| <= |t| && r == t[..|r|]
    ensures t in {"functions", "branches", "lines"} ==> |r| < |t|
    ensures t !in {"functions", "branches", "lines"} ==> r == t
  {
    if t == "functions" then "function"
    else if t == "branches" then "branch"
    else if t == "lines" then "line"
    else t
  }

  /** `file.replace(workspace + '/', '')`: only the first occurrence goes. */
  function TrimWorkspace(file: string, workspace: string): (r: string)
    ensures |r| == |file| || |r| == |file| - |workspace| - 1
  {
    ReplaceFirst(file, workspace + "/", "")
  }

  /** A path under the workspace loses the workspace prefix. */
  lemma TrimUnderWorkspace(workspace: string, rest: string)
    ensures TrimWorkspace(workspace + "/" + rest, workspace) == rest
  {
    var t := workspace + "/";
    var s := t + rest;
    assert s[..|t|] == t;
    assert IndexOf(s, t) == Some(0);
    assert s[|t|..] == rest;
  }

  /** A path that does not mention the workspace is kept as it is. */
  lemma TrimOutsideWorkspace(file: string, workspace: string)
    requires !Contains(file, workspace + "/")
    ensures TrimWorkspace(file, workspace) == file
  {
  }

  /** A one-character pattern occurs exactly where the character is. */
  lemma OccursAtChar(s: string, c: char, i: int)
    ensures OccursAt(s, [c], i) <==> 0 <= i < |s| && s[i] == c
  {
    if 0 <= i < |s| && s[i] == c {
      assert s[i..i + 1] == [c];
    }
  }

  /** The search for a one-character pattern finds the first occurrence of the character. */
  lemma IndexOfChar(s: string, c: char)
    ensures IndexOf(s, [c]).None? <==> c !in s
    ensures IndexOf(s, [c]).Some? ==> s[IndexOf(s, [c]).value] == c && c !in s[..IndexOf(s, [c]).value]
  {
    match IndexOf(s, [c])
    case None =>
      forall j | 0 <= j < |s|
        ensures s[j] != c
      {
        OccursAtChar(s, c, j);
      }
    case Some(i) =>
      OccursAtChar(s, c, i);
      forall p | 0 <= p < i
        ensures s[..i][p] != c
      {
        OccursAtChar(s, c, p);
      }
  }

  /** With an empty workspace the pattern is `/`, so the first `/` of the path is deleted. */
  lemma TrimEmptyWorkspace(file: string, workspace: string)
    requires |workspace| == 0
    ensures '/' !in file ==> TrimWorkspace(file, workspace) == file
    ensures '/' in file ==>
              exists i :: 0 <= i < |file| && file[i] == '/' && '/' !in file[..i]
                          && TrimWorkspace(file, workspace) == file[..i] + file[i + 1..]
  {
    var pat := workspace + "/";
    assert pat == ['/'];
    IndexOfChar(file, '/');
    if '/' in file {
      var i := IndexOf(file, pat).value;
      DropFirstSlash(file, workspace, i);
      assert 0 <= i < |file| && file[i] == '/' && '/' !in file[..i];
    }
  }

  lemma DropFirstSlash(file: string, workspace: string, i: nat)
    requires |workspace| == 0 && IndexOf(file, workspace + "/") == Some(i)
    ensures TrimWorkspace(file, workspace) == file[..i] + file[i + 1..]
  {
    assert |workspace + "/"| == 1;
    assert file[..i] + "" + file[i + 1..] == file[..i] + file[i + 1..];
  }

  // ---------------------------------------------------------------------------
  // Grouping a file's items by type (summarizeAnnotations)
  // ---------------------------------------------------------------------------

  /** Type name to line numbers, in first-appearance order of the types. */
  type Groups = AssocList<seq<int>>

  /** The line numbers of the items of type `t`, in item order. */
  function LinesOfType(items: seq<UncoveredLine>, t: string): (r: seq<int>)
    ensures |r| <= |items|
    decreases |items|
  {
    if |items| == 0 then []
    else
      var last := items[|items| - 1];
      LinesOfType(items[..|items| - 1], t) + (if last.annotationType == t then [last.lineNumber] else [])
  }

  /** The type of each item. */
  function TypesOf(items: seq<UncoveredLine>): (r: seq<string>)
    ensures |r| == |items|
    ensures forall i :: 0 <= i < |items| ==> r[i] == items[i].annotationType
  {
    seq(|items|, i requires 0 <= i < |items| => items[i].annotationType)
  }

  /** Each name once, in the order of its first occurrence. */
  function FirstAppearance(s: seq<string>): (r: seq<string>)
    ensures forall x :: x in r <==> x in s
    decreases |s|
  {
    if |s| == 0 then []
    else
      var init := FirstAppearance(s[..|s| - 1]);
      assert s == s[..|s| - 1] + [s[|s| - 1]];
      if s[|s| - 1] in init then init else init + [s[|s| - 1]]
  }

  /** `existing.push(lineNumber)` on the group of the item's type, creating it when new. */
  function AddItem(g: Groups, item: UncoveredLine): Groups {
    var existing := match Lookup(g, item.annotationType) case None => [] case Some(ls) => ls;
    Put(g, item.annotationType, existing + [item.lineNumber])
  }

  /** The `annotationMap` built by the inner `forEach`. */
  function GroupByType(items: seq<UncoveredLine>): Groups
    decreases |items|
  {
    if |items| == 0 then [] else AddItem(GroupByType(items[..|items| - 1]), items[|items| - 1])
  }

  lemma Snoc<T>(s: seq<T>)
    requires |s| > 0
    ensures s == s[..|s| - 1] + [s[|s| - 1]]
  {
  }

  /** Each type has one group. */
  lemma {:induction false} GroupByTypeDistinct(items: seq<UncoveredLine>)
    ensures DistinctKeys(GroupByType(items))
    decreases |items|
  {
    if |items| > 0 {
      var init := items[..|items| - 1];
      var last := items[|items| - 1];
      GroupByTypeDistinct(init);
      var existing := match Lookup(GroupByType(init), last.annotationType) case None => [] case Some(ls) => ls;
      PutDistinct(GroupByType(init), last.annotationType, existing + [last.lineNumber]);
    }
  }

  /** The group of `t` holds exactly the line numbers of the items of type `t`, in item order. */
  lemma {:induction false} GroupByTypeLookup(items: seq<UncoveredLine>, t: string)
    ensures Lookup(GroupByType(items), t) == if t in TypesOf(items) then Some(LinesOfType(items, t)) else None
    decreases |items|
  {
    if |items| > 0 {
      var init := items[..|items| - 1];
      var last := items[|items| - 1];
      Snoc(items);
      GroupByTypeLookup(init, t);
      GroupByTypeLookup(init, last.annotationType);
      var g := GroupByType(init);
      var existing := match Lookup(g, last.annotationType) case None => [] case Some(ls) => ls;
      PutLookup(g, last.annotationType, existing + [last.lineNumber], t);
      assert TypesOf(items) == TypesOf(init) + [last.annotationType];
      assert LinesOfType(items, t) == LinesOfType(init, t) + (if last.annotationType == t then [last.lineNumber] else []);
      assert GroupByType(items) == Put(g, last.annotationType, existing + [last.lineNumber]);
      if t != last.annotationType {
        assert LinesOfType(init, t) + [] == LinesOfType(init, t);
      } else if t !in TypesOf(init) {
        LinesOfTypeAbsent(init, t);
        assert existing == [];
        assert [] + [last.lineNumber] == [last.lineNumber];
      }
    }
  }

  /** A type no item carries has no lines. */
  lemma {:induction false} LinesOfTypeAbsent(items: seq<UncoveredLine>, t: string)
    requires t !in TypesOf(items)
    ensures LinesOfType(items, t) == []
    decreases |items|
  {
    if |items| > 0 {
      var init := items[..|items| - 1];
      Snoc(items);
      assert TypesOf(items) == TypesOf(init) + [items[|items| - 1].annotationType];
      LinesOfTypeAbsent(init, t);
    }
  }

  /** The groups appear in the order in which their types first occur among the items. */
  lemma {:induction false} GroupByTypeKeys(items: seq<UncoveredLine>)
    ensures Keys(GroupByType(items)) == FirstAppearance(TypesOf(items))
    decreases |items|
  {
    if |items| > 0 {
      var init := items[..|items| - 1];
      var last := items[|items| - 1];
      Snoc(items);
      GroupByTypeKeys(init);
      var g := GroupByType(init);
      var existing := match Lookup(g, last.annotationType) case None => [] case Some(ls) => ls;
      PutKeys(g, last.annotationType, existing + [last.lineNumber]);
      var ts := TypesOf(items);
      assert ts == TypesOf(init) + [last.annotationType];
      assert ts[..|ts| - 1] == TypesOf(init);
    }
  }

  /** The reference grouping: one entry per type, in first-appearance order, with that type's lines. */
  function ReferenceGroups(items: seq<UncoveredLine>): (r: Groups)
    ensures |r| == |FirstAppearance(TypesOf(items))|
  {
    var ts := FirstAppearance(TypesOf(items));
    seq(|ts|, i requires 0 <= i < |ts| => (ts[i], LinesOfType(items, ts[i])))
  }

  /** In a list with distinct keys, the entry at a key's position is what the key reads. */
  lemma LookupDistinct<V>(m: AssocList<V>, i: nat)
    requires DistinctKeys(m) && i < |m|
    ensures Lookup(m, m[i].0) == Some(m[i].1)
  {
    KeyAt(m, i, m[i].0);
  }

  /** `summarizeAnnotations` groups exactly as the reference grouping. */
  lemma GroupByTypeIsReference(items: seq<UncoveredLine>)
    ensures GroupByType(items) == ReferenceGroups(items)
  {
    var g := GroupByType(items);
    var ts := FirstAppearance(TypesOf(items));
    GroupByTypeKeys(items);
    GroupByTypeDistinct(items);
    forall i | 0 <= i < |g|
      ensures g[i] == (ts[i], LinesOfType(items, ts[i]))
    {
      assert g[i].0 == Keys(g)[i] == ts[i];
      assert ts[i] in TypesOf(items);
      LookupDistinct(g, i);
      GroupByTypeLookup(items, ts[i]);
    }
  }

  /** The number of values over all entries. */
  function TotalSize<T>(m: AssocList<seq<T>>): nat
    decreases |m|
  {
    if |m| == 0 then 0 else |m[0].1| + TotalSize(m[1..])
  }

  lemma {:induction false} TotalSizeUpdate<T>(m: AssocList<seq<T>>, i: nat, e: (string, seq<T>))
    requires i < |m|
    ensures TotalSize(m[i := e]) + |m[i].1| == TotalSize(m) + |e.1|
    decreases i
  {
    if i > 0 {
      TotalSizeUpdate(m[1..], i - 1, e);
      assert m[i := e][1..] == m[1..][i - 1 := e];
    }
  }

  lemma {:induction false} TotalSizeAppend<T>(a: AssocList<seq<T>>, b: AssocList<seq<T>>)
    ensures TotalSize(a + b) == TotalSize(a) + TotalSize(b)
    decreases |a|
  {
    if |a| == 0 {
      assert a + b == b;
    } else {
      TotalSizeAppend(a[1..], b);
      assert (a + b)[1..] == a[1..] + b;
    }
  }

  /** The group sizes add up to the number of items: every item lands in exactly one group. */
  lemma {:induction false} GroupSizes(items: seq<UncoveredLine>)
    ensures TotalSize(GroupByType(items)) == |items|
    decreases |items|
  {
    if |items| > 0 {
      var init := items[..|items| - 1];
      var last := items[|items| - 1];
      GroupSizes(init);
      var g := GroupByType(init);
      var k := last.annotationType;
      match IndexOfKey(g, k)
      case None =>
        assert Lookup(g, k).None?;
        var e := (k, [last.lineNumber]);
        assert [] + [last.lineNumber] == [last.lineNumber];
        assert AddItem(g, last) == g + [e];
        TotalSizeAppend(g, [e]);
        assert [e][1..] == [];
      case Some(i) =>
        assert Lookup(g, k) == Some(g[i].1);
        TotalSizeUpdate(g, i, (k, g[i].1 + [last.lineNumber]));
    }
  }

  // ---------------------------------------------------------------------------
  // Annotations
  // ---------------------------------------------------------------------------

  /** The line numbers as `linesArray.join(', ')` writes them. */
  function NumberList(lines: seq<int>): string {
    JoinWith(seq(|lines|, i requires 0 <= i < |lines| => IntToString(lines[i])), ", ")
  }

  /** The sentence for one type group. */
  function Sentence(t: string, lines: seq<int>): string {
    "The " + t + " at place(s) " + NumberList(lines) + " were not covered by any of the Tests.\n"
  }

  /** The sentences of all groups, in group order. */
  function SummaryMessage(groups: Groups): string
    decreases |groups|
  {
    if |groups| == 0 then "" else Sentence(groups[0].0, groups[0].1) + SummaryMessage(groups[1..])
  }

  const SummaryTitle: string := "** Summary of Uncovered Code **"

  /** The one annotation of a file in summarize mode. */
  function SummaryAnnotation(file: string, items: seq<UncoveredLine>, workspace: string): Annotation {
    Annotation(TrimWorkspace(file, workspace), 1, 1, Failure, SummaryMessage(GroupByType(items)), Some(SummaryTitle))
  }

  function Summarize(data: AssocList<seq<UncoveredLine>>, workspace: string): (r: seq<Annotation>)
    ensures |r| == |data|
  {
    seq(|data|, i requires 0 <= i < |data| => SummaryAnnotation(data[i].0, data[i].1, workspace))
  }

  /** The annotation of one item in detailed mode. */
  function DetailAnnotation(file: string, item: UncoveredLine, workspace: string): Annotation {
    Annotation(TrimWorkspace(file, workspace), item.lineNumber, item.lineNumber, Failure,
               Singular(item.annotationType) + " not covered!", None)
  }

  function DetailedFile(file: string, items: seq<UncoveredLine>, workspace: string): (r: seq<Annotation>)
    ensures |r| == |items|
  {
    seq(|items|, k requires 0 <= k < |items| => DetailAnnotation(file, items[k], workspace))
  }

  function Detailed(data: AssocList<seq<UncoveredLine>>, workspace: string): seq<Annotation>
    decreases |data|
  {
    if |data| == 0 then [] else DetailedFile(data[0].0, data[0].1, workspace) + Detailed(data[1..], workspace)
  }

  /** `createAnnotations`. */
  function CreateAnnotations(data: AssocList<seq<UncoveredLine>>, coverageType: string, workspace: string): seq<Annotation> {
    if coverageType == "summarize" then Summarize(data, workspace)
    else if coverageType == "detailed" then Detailed(data, workspace)
    else []
  }

  /** Detailed mode works file by file. */
  lemma {:induction false} DetailedAppend(a: AssocList<seq<UncoveredLine>>, b: AssocList<seq<UncoveredLine>>, workspace: string)
    ensures Detailed(a + b, workspace) == Detailed(a, workspace) + Detailed(b, workspace)
    decreases |a|
  {
    if |a| == 0 {
      assert a + b == b;
    } else {
      var h := DetailedFile(a[0].0, a[0].1, workspace);
      DetailedAppend(a[1..], b, workspace);
      assert (a + b)[0] == a[0] && (a + b)[1..] == a[1..] + b;
      assert Detailed(a + b, workspace) == h + Detailed(a[1..] + b, workspace);
      assert Detailed(a, workspace) == h + Detailed(a[1..], workspace);
    }
  }

  /** Detailed mode emits one annotation per item. */
  lemma {:induction false} DetailedCount(data: AssocList<seq<UncoveredLine>>, workspace: string)
    ensures |Detailed(data, workspace)| == TotalSize(data)
    decreases |data|
  {
    if |data| > 0 {
      DetailedCount(data[1..], workspace);
    }
  }

  /**
   * Item `k` of file `i` becomes the annotation after those of the earlier
   * files' items and the file's earlier items: a failure spanning just its
   * line, with the singular type name and no title.
   */
  lemma DetailedAt(data: AssocList<seq<UncoveredLine>>, workspace: string, i: nat, k: nat)
    requires i < |data| && k < |data[i].1|
    ensures TotalSize(data[..i]) + k < |CreateAnnotations(data, "detailed", workspace)|
    ensures var a := CreateAnnotations(data, "detailed", workspace)[TotalSize(data[..i]) + k];
            var item := data[i].1[k];
            && a.path == TrimWorkspace(data[i].0, workspace)
            && a.startLine == item.lineNumber && a.endLine == item.lineNumber
            && a.level == Failure
            && a.message == Singular(item.annotationType) + " not covered!"
            && a.title.None?
  {
    var before := data[..i];
    var after := data[i + 1..];
    assert data == before + [data[i]] + after;
    DetailedAppend(before + [data[i]], after, workspace);
    DetailedAppend(before, [data[i]], workspace);
    DetailedCount(before, workspace);
    assert [data[i]][1..] == [];
    var own := DetailedFile(data[i].0, data[i].1, workspace);
    assert Detailed([data[i]], workspace) == own + [];
    var all := Detailed(before, workspace) + own + Detailed(after, workspace);
    assert all[TotalSize(before) + k] == own[k];
  }

  /**
   * Summarize mode emits one annotation per file, at line 1 with the fixed
   * title; its message has one sentence per type, in first-appearance order,
   * listing that type's lines in item order.
   */
  lemma SummarizeAt(data: AssocList<seq<UncoveredLine>>, workspace: string, i: nat)
    requires i < |data|
    ensures |CreateAnnotations(data, "summarize", workspace)| == |data|
    ensures var a := CreateAnnotations(data, "summarize", workspace)[i];
            && a.path == TrimWorkspace(data[i].0, workspace)
            && a.startLine == 1 && a.endLine == 1
            && a.level == Failure
            && a.title == Some(SummaryTitle)
            && a.message == SummaryMessage(ReferenceGroups(data[i].1))
  {
    GroupByTypeIsReference(data[i].1);
  }

  /** Any other coverage type yields no annotations; detailed mode yields one per item. */
  lemma CreateAnnotationsCount(data: AssocList<seq<UncoveredLine>>, coverageType: string, workspace: string)
    ensures coverageType != "summarize" && coverageType != "detailed" ==> CreateAnnotations(data, coverageType, workspace) == []
    ensures coverageType == "summarize" ==> |CreateAnnotations(data, coverageType, workspace)| == |data|
    ensures coverageType == "detailed" ==> |CreateAnnotations(data, coverageType, workspace)| == TotalSize(data)
  {
    DetailedCount(data, workspace);
  }

  /** An empty summary message means the file had no items. */
  lemma SummaryMessageEmpty(items: seq<UncoveredLine>)
    ensures SummaryMessage(GroupByType(items)) == "" <==> |items| == 0
  {
    GroupSizes(items);
    var g := GroupByType(items);
    if |g| > 0 {
      assert |Sentence(g[0].0, g[0].1)| > 0;
    }
  }
}
