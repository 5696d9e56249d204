/**
 writeInclude: the lines that include one JUCE file from a generated wrapper or
 header. Every exporter may see JUCE at a different path, so when the exporters
 disagree the include is chosen by a preprocessor chain keyed on each
 exporter's identifying macro; when they all agree it is one plain #include.
 */
module IncludeResolver {
  import opened JuceText
  import opened StringArray

  /**
   What one exporter contributes: the path under which it includes the JUCE
   file in question, and the macro that is defined only in its builds.
   */
  datatype ExporterView = ExporterView(includePath: string, identifierMacro: string)

  /** One arm of the chain: the include to use when `guard` holds. */
  datatype Branch = Branch(path: string, guard: string)

  function GuardOf(macro: string): (g: string)
    ensures g != ""
  {
    "defined (" + macro + ")"
  }

  function BranchOf(e: ExporterView): Branch {
    Branch(e.includePath, GuardOf(e.identifierMacro))
  }

  /** The branches in the order writeInclude collects them: the last exporter first. */
  function Candidates(exporters: seq<ExporterView>): (cs: seq<Branch>)
    ensures |cs| == |exporters|
    ensures forall k :: 0 <= k < |cs| ==> cs[k] == BranchOf(exporters[|exporters| - 1 - k])
  {
    if |exporters| == 0 then []
    else [BranchOf(exporters[|exporters| - 1])] + Candidates(exporters[..|exporters| - 1])
  }

  function PathsOf(bs: seq<Branch>): (paths: seq<string>)
    ensures |paths| == |bs| && forall k :: 0 <= k < |bs| ==> paths[k] == bs[k].path
  {
    seq(|bs|, k requires 0 <= k < |bs| => bs[k].path)
  }

  /** The two lines of arm `k`: its condition (#if for the first arm, #elif after) and its include. */
  function ArmLines(k: nat, b: Branch): seq<string> {
    [(if k == 0 then "#if " else "#elif ") + b.guard, " #include " + b.path]
  }

  /** The arms of the first `n` branches, in order. */
  function ArmsUpTo(bs: seq<Branch>, n: nat): (lines: seq<string>)
    requires n <= |bs|
    ensures |lines| == 2 * n
    ensures forall k :: 0 <= k < n ==> lines[2 * k] == (if k == 0 then "#if " else "#elif ") + bs[k].guard
    ensures forall k :: 0 <= k < n ==> lines[2 * k + 1] == " #include " + bs[k].path
  {
    if n == 0 then [] else ArmsUpTo(bs, n - 1) + ArmLines(n - 1, bs[n - 1])
  }

  /** The preprocessor chain over `bs`, closed by #endif. */
  function GuardChain(bs: seq<Branch>): (lines: seq<string>)
    ensures |lines| == 2 * |bs| + 1 && lines[2 * |bs|] == "#endif"
  {
    ArmsUpTo(bs, |bs|) + ["#endif"]
  }

  /**
   What writeInclude emits: one plain #include when the exporters' paths reduce
   to a single distinct path, otherwise the chain over the distinct
   (path, guard) pairs, first occurrences kept.
   */
  function IncludeLines(exporters: seq<ExporterView>): seq<string> {
    var cs := Candidates(exporters);
    if |Dedup(PathsOf(cs))| == 1 then ["#include " + cs[0].path]
    else GuardChain(Dedup(cs))
  }

  /**
   The nested backward loop of writeInclude that deletes entry i when an earlier
   entry has the same path and guard. After a deletion the loop keeps comparing
   position i, which now holds the next survivor or (past the end) the empty
   entry StringArray hands back; neither can match, so the result is the
   keep-first deduplication.
   */
  method RemoveLaterDuplicates(branches: seq<Branch>) returns (kept: seq<Branch>)
    requires forall k :: 0 <= k < |branches| ==> branches[k].guard != ""
    ensures kept == Dedup(branches)
  {
    kept := branches;
    var i := |branches|;
    while i > 0
      invariant 0 <= i <= |branches|
      invariant kept == branches[..i] + DedupFrom(branches, i)
    {
      i := i - 1;
      kept := RemoveIfRepeated(branches, i, kept);
    }
  }

  /**
   One pass of the inner loop: entry i is compared with every earlier entry,
   from i - 1 down to 0, and deleted at the first match.
   */
  method RemoveIfRepeated(branches: seq<Branch>, i: nat, current: seq<Branch>) returns (kept: seq<Branch>)
    requires forall k :: 0 <= k < |branches| ==> branches[k].guard != ""
    requires i < |branches|
    requires current == branches[..i + 1] + DedupFrom(branches, i + 1)
    ensures kept == branches[..i] + DedupFrom(branches, i)
  {
    kept := current;
    var j := i;
    ghost var removed := false;
    while j > 0
      invariant 0 <= j <= i
      invariant i <= |kept| && kept[..i] == branches[..i]
      invariant !removed ==> kept == current && branches[i] !in branches[j..i]
      invariant removed ==> kept == branches[..i] + DedupFrom(branches, i + 1) && branches[i] in branches[..i]
    {
      j := j - 1;
      assert kept[j] == kept[..i][j] == branches[j];
      if EntryAt(kept, i) == kept[j] {
        if removed {
          NoMatchAfterRemoval(branches, i, j, kept);
        }
        RemoveRepeatedEntry(branches, i, j, current);
        kept := kept[..i] + kept[i + 1..];
        removed := true;
      } else if !removed {
        assert branches[j..i] == [branches[j]] + branches[j + 1..i];
      }
    }
    if !removed {
      KeepFreshEntry(branches, i);
    }
  }

  /** Deleting entry i, a repeat of entry j, leaves the earlier entries and the survivors after it. */
  lemma {:induction false} RemoveRepeatedEntry(branches: seq<Branch>, i: nat, j: nat, current: seq<Branch>)
    requires j < i < |branches| && branches[j] == branches[i]
    requires current == branches[..i + 1] + DedupFrom(branches, i + 1)
    ensures current[..i] + current[i + 1..] == branches[..i] + DedupFrom(branches, i + 1)
    ensures branches[i] in branches[..i]
  {
    assert current[..i] == branches[..i];
    assert current[i + 1..] == DedupFrom(branches, i + 1);
    assert branches[..i][j] == branches[i];
  }

  /** An entry that repeats nothing before it stays where it is. */
  lemma {:induction false} KeepFreshEntry(branches: seq<Branch>, i: nat)
    requires i < |branches| && branches[i] !in branches[..i]
    ensures branches[..i + 1] + DedupFrom(branches, i + 1) == branches[..i] + DedupFrom(branches, i)
  {
    assert branches[..i + 1] == branches[..i] + [branches[i]];
  }

  /** StringArray::operator[] on the parallel path and guard arrays: past the end both read as "". */
  function EntryAt(bs: seq<Branch>, i: int): Branch {
    if 0 <= i < |bs| then bs[i] else Branch("", "")
  }

  /** Once entry i is gone, what sits at position i matches none of the entries before it. */
  lemma {:induction false} NoMatchAfterRemoval(branches: seq<Branch>, i: nat, j: nat, kept: seq<Branch>)
    requires forall k :: 0 <= k < |branches| ==> branches[k].guard != ""
    requires j < i < |branches|
    requires kept == branches[..i] + DedupFrom(branches, i + 1)
    ensures EntryAt(kept, i) != kept[j]
  {
    assert kept[j] == branches[j];
    if i < |kept| {
      var d := kept[i];
      assert d == DedupFrom(branches, i + 1)[0];
      DedupFromFresh(branches, i + 1, d);
      assert branches[j] in branches[..i + 1];
    }
  }

  /** writeInclude, statement by statement. */
  method WriteInclude(exporters: seq<ExporterView>) returns (lines: seq<string>)
    ensures lines == IncludeLines(exporters)
  {
    var branches := CollectBranches(exporters);
    var uniquePaths := Dedup(PathsOf(branches));
    if |uniquePaths| == 1 {
      lines := ["#include " + EntryAt(branches, 0).path];
    } else {
      var kept := RemoveLaterDuplicates(branches);
      lines := WriteGuardChain(kept);
    }
  }

  /** The first loop of writeInclude: one (path, guard) pair per exporter, walking the exporters backwards. */
  method CollectBranches(exporters: seq<ExporterView>) returns (branches: seq<Branch>)
    ensures branches == Candidates(exporters)
  {
    branches := [];
    var i := |exporters|;
    while i > 0
      invariant 0 <= i <= |exporters|
      invariant |branches| == |exporters| - i
      invariant forall k :: 0 <= k < |branches| ==> branches[k] == BranchOf(exporters[|exporters| - 1 - k])
    {
      i := i - 1;
      branches := branches + [Branch(exporters[i].includePath, GuardOf(exporters[i].identifierMacro))];
    }
  }

  /** The last loop of writeInclude: an #if or #elif arm per pair, then #endif. */
  method WriteGuardChain(kept: seq<Branch>) returns (lines: seq<string>)
    ensures lines == GuardChain(kept)
  {
    lines := [];
    var k := 0;
    while k < |kept|
      invariant 0 <= k <= |kept|
      invariant lines == ArmsUpTo(kept, k)
    {
      lines := lines + ArmLines(k, kept[k]);
      k := k + 1;
    }
    lines := lines + ["#endif"];
  }

  /** When every exporter sees the file at the same path, the guards do not matter: one plain #include. */
  lemma {:induction false} SharedPathIsPlainInclude(exporters: seq<ExporterView>, path: string)
    requires |exporters| > 0
    requires forall k :: 0 <= k < |exporters| ==> exporters[k].includePath == path
    ensures IncludeLines(exporters) == ["#include " + path]
  {
    var paths := PathsOf(Candidates(exporters));
    DedupSingleton(paths);
  }

  /**
   When the exporters disagree on the path, the chain has one arm per distinct
   (path, guard) pair: each exporter's pair is the arm at exactly one position,
   no pair is repeated, and the first arm is the last exporter's.
   */
  lemma {:induction false} DisagreeingPathsGiveOneArmPerExporter(exporters: seq<ExporterView>, e: nat)
    requires e < |exporters|
    requires exists k :: 0 <= k < |exporters| && exporters[k].includePath != exporters[e].includePath
    ensures var arms := Dedup(Candidates(exporters));
            && IncludeLines(exporters) == GuardChain(arms)
            && (exists a :: 0 <= a < |arms| && arms[a] == BranchOf(exporters[e]))
            && (forall a, b :: 0 <= a < b < |arms| ==> arms[a] != arms[b])
            && arms[0] == BranchOf(exporters[|exporters| - 1])
  {
    var cs := Candidates(exporters);
    var paths := PathsOf(cs);
    var arms := Dedup(cs);
    var k :| 0 <= k < |exporters| && exporters[k].includePath != exporters[e].includePath;
    assert paths[|exporters| - 1 - k] != paths[|exporters| - 1 - e];
    DedupSingleton(paths);
    DedupMembers(cs);
    assert cs[|exporters| - 1 - e] == BranchOf(exporters[e]);
    assert BranchOf(exporters[e]) in arms;
    DedupFirstOccurrenceOrder(cs);
    assert cs[..0] == [];
  }

  /** A project with no exporters gets a bare "#endif": its path list has no distinct entry at all. */
  lemma {:induction false} NoExportersGivesBareEndif()
    ensures IncludeLines([]) == ["#endif"]
  {
    assert Candidates([]) == [];
    assert PathsOf([]) == [];
  }
}
