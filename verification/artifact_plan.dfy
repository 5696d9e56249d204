/**
 The artifact planner of the project saver: which generated wrapper files a
 project needs for its JUCE linkage mode, which numbered source wrappers are
 written, what they are called and which amalgamated JUCE file each one pulls in.
 */
module ArtifactPlan {
  import opened JuceText

  /**
   How a project pulls in JUCE. The C++ code compares the mode's text against
   five constants and stops at an assertion on any other text; a closed
   datatype leaves that case out.
   */
  datatype LinkageMode =
    | NotLinkedToJuce
    | UseAmalgamatedJuce
    | UseAmalgamatedJuceViaSingleTemplate
    | UseAmalgamatedJuceViaMultipleTemplates
    | UseLinkedJuce
  {
    /** The modes that compile JUCE's source through generated wrapper files. */
    predicate IsAmalgamated() {
      UseAmalgamatedJuce? || UseAmalgamatedJuceViaSingleTemplate? || UseAmalgamatedJuceViaMultipleTemplates?
    }
  }

  /** The decisions `save` takes once, before anything is written. */
  datatype Plan = Plan(
    hasAppHeaderFile: bool,
    hasAppConfigFile: bool,
    numJuceSourceFiles: int,
    hasResources: bool)

  /**
   The planner at the start of `save`. A project that does not link JUCE gets
   no config header, and an app header only when it is not a library; every
   other mode gets both. Only the amalgamated modes have source wrappers: one,
   or as many as the project's separate amalgamated files.
   */
  function PlanArtifacts(mode: LinkageMode, isLibrary: bool, numSeparateAmalgamatedFiles: int,
                         numResourceFiles: int): (p: Plan)
    ensures p.hasAppConfigFile <==> mode != NotLinkedToJuce
    ensures p.hasAppHeaderFile <==> mode != NotLinkedToJuce || !isLibrary
    ensures p.numJuceSourceFiles != 0 ==> mode.IsAmalgamated()
    ensures mode.IsAmalgamated() && !mode.UseAmalgamatedJuceViaMultipleTemplates? ==> p.numJuceSourceFiles == 1
    ensures mode.UseAmalgamatedJuceViaMultipleTemplates? ==> p.numJuceSourceFiles == numSeparateAmalgamatedFiles
    ensures p.hasResources <==> numResourceFiles > 0
  {
    var hasResources := numResourceFiles > 0;
    match mode
    case NotLinkedToJuce => Plan(!isLibrary, false, 0, hasResources)
    case UseAmalgamatedJuce => Plan(true, true, 1, hasResources)
    case UseAmalgamatedJuceViaSingleTemplate => Plan(true, true, 1, hasResources)
    case UseAmalgamatedJuceViaMultipleTemplates => Plan(true, true, numSeparateAmalgamatedFiles, hasResources)
    case UseLinkedJuce => Plan(true, true, 0, hasResources)
  }

  /**
   Whether source wrapper `i` is written (and handed to the exporters) rather
   than deleted: wrapper 0 when there is exactly one JUCE source file, the
   numbered wrappers when there are several.
   */
  predicate WrapperApplies(numJuceSourceFiles: int, i: int): (b: bool)
    ensures numJuceSourceFiles <= 0 ==> !b
    ensures numJuceSourceFiles == 1 ==> (b <==> i == 0)
    ensures numJuceSourceFiles > 1 ==> (b <==> i != 0)
  {
    numJuceSourceFiles > 0 && ((i == 0 && numJuceSourceFiles == 1) || (i != 0 && numJuceSourceFiles > 1))
  }

  /**
   Which of the wrappers 0..numSeparateAmalgamatedFiles a save writes, by mode:
   wrapper 0 alone for the single-file modes, wrapper 0 for the multiple-template
   mode with one file and wrappers 1..n for it with n > 1 files, and none when
   JUCE is not compiled from source.
   */
  lemma {:induction false} WrittenWrappers(mode: LinkageMode, isLibrary: bool, numSeparateAmalgamatedFiles: int,
                        numResourceFiles: int, i: int)
    requires 0 <= i <= numSeparateAmalgamatedFiles
    ensures WrapperApplies(PlanArtifacts(mode, isLibrary, numSeparateAmalgamatedFiles, numResourceFiles).numJuceSourceFiles, i)
        <==> ((mode.UseAmalgamatedJuce? || mode.UseAmalgamatedJuceViaSingleTemplate?) && i == 0)
             || (mode.UseAmalgamatedJuceViaMultipleTemplates?
                 && ((numSeparateAmalgamatedFiles == 1 && i == 0) || (numSeparateAmalgamatedFiles > 1 && i >= 1)))
  {
  }

  /** A file: its folder and its name within the folder. */
  datatype FilePath = FilePath(folder: string, name: string)

  /** File::getFullPathName. */
  function FullPathName(f: FilePath): string {
    f.folder + "/" + f.name
  }

  /** Position of the last '.' in `name`, or -1 when there is none. */
  function LastDot(name: string): (i: int)
    ensures -1 <= i < |name|
    ensures i >= 0 ==> name[i] == '.'
    ensures forall k :: i < k < |name| ==> name[k] != '.'
  {
    LastDotBefore(name, |name|)
  }

  /** Position of the last '.' among the first `n` characters of `name`, or -1. */
  function LastDotBefore(name: string, n: nat): (i: int)
    requires n <= |name|
    ensures -1 <= i < n
    ensures i >= 0 ==> name[i] == '.'
    ensures forall k :: i < k < n ==> name[k] != '.'
  {
    if n == 0 then -1
    else if name[n - 1] == '.' then n - 1
    else LastDotBefore(name, n - 1)
  }

  /** The name without its extension: everything before the last '.'. */
  function Stem(name: string): string {
    var i := LastDot(name);
    if i >= 0 then name[..i] else name
  }

  /**
   File::withFileExtension: the sibling file whose name is this name with its
   last extension replaced; a '.' is put in front of an extension given without one.
   */
  function WithFileExtension(f: FilePath, ext: string): FilePath {
    var dot := if |ext| > 0 && ext[0] != '.' then "." else "";
    FilePath(f.folder, Stem(f.name) + dot + ext)
  }

  /** Replacing a one-dot extension such as ".cpp" by another gives what replacing the original would. */
  lemma {:induction false} ReplaceExtensionTwice(f: FilePath, first: string, second: string)
    requires |first| > 0 && first[0] == '.' && forall k :: 1 <= k < |first| ==> first[k] != '.'
    ensures WithFileExtension(WithFileExtension(f, first), second) == WithFileExtension(f, second)
  {
    var stem := Stem(f.name);
    var n := WithFileExtension(f, first).name;
    assert n == stem + first;
    LastDotAt(n, |stem|);
    assert n[..|stem|] == stem;
  }

  /** The name of source wrapper `i` before its extension: the root, then the index unless it is 0. */
  function WrapperBaseName(root: string, i: nat): string {
    root + (if i != 0 then NatToString(i) else "")
  }

  /** getSourceWrapperCpp: wrapper `i` in the wrapper folder, with the ".cpp" extension. */
  function SourceWrapperCpp(wrapperFolder: string, root: string, i: nat): (f: FilePath)
    ensures f.folder == wrapperFolder
    ensures LastDot(WrapperBaseName(root, i)) == -1 ==> f.name == WrapperBaseName(root, i) + ".cpp"
  {
    WithFileExtension(FilePath(wrapperFolder, WrapperBaseName(root, i)), ".cpp")
  }

  /** The Objective-C++ twin of wrapper `i`: the same file with the ".mm" extension. */
  function SourceWrapperMM(wrapperFolder: string, root: string, i: nat): FilePath {
    WithFileExtension(SourceWrapperCpp(wrapperFolder, root, i), ".mm")
  }

  lemma {:induction false} NoDotInDecimal(n: nat)
    ensures forall k :: 0 <= k < |NatToString(n)| ==> NatToString(n)[k] != '.'
  {
    var s := NatToString(n);
    forall k | 0 <= k < |s| ensures s[k] != '.' {
      assert IsDigit(s[k]);
    }
  }

  /**
   With a root free of '.', wrapper `i` is called root + index + ".cpp" (no index
   for 0) and its twin root + index + ".mm".
   */
  lemma {:induction false} WrapperNames(wrapperFolder: string, root: string, i: nat)
    requires forall k :: 0 <= k < |root| ==> root[k] != '.'
    ensures SourceWrapperCpp(wrapperFolder, root, i) == FilePath(wrapperFolder, WrapperBaseName(root, i) + ".cpp")
    ensures SourceWrapperMM(wrapperFolder, root, i) == FilePath(wrapperFolder, WrapperBaseName(root, i) + ".mm")
  {
    var base := WrapperBaseName(root, i);
    if i != 0 {
      NoDotInDecimal(i);
      assert forall k :: 0 <= k < |base| ==> base[k] != '.' by {
        forall k | 0 <= k < |base| ensures base[k] != '.' {
          if k >= |root| { assert base[k] == NatToString(i)[k - |root|]; }
        }
      }
    }
    assert LastDot(base) == -1;
    ReplaceExtensionTwice(FilePath(wrapperFolder, base), ".cpp", ".mm");
  }

  /** With a root free of '.', distinct wrappers get distinct files, and no ".cpp" file is a ".mm" file. */
  lemma {:induction false} WrapperNamesDistinct(wrapperFolder: string, root: string, i: nat, j: nat)
    requires forall k :: 0 <= k < |root| ==> root[k] != '.'
    ensures i != j ==> SourceWrapperCpp(wrapperFolder, root, i) != SourceWrapperCpp(wrapperFolder, root, j)
    ensures i != j ==> SourceWrapperMM(wrapperFolder, root, i) != SourceWrapperMM(wrapperFolder, root, j)
    ensures SourceWrapperCpp(wrapperFolder, root, i) != SourceWrapperMM(wrapperFolder, root, j)
  {
    WrapperNames(wrapperFolder, root, i);
    WrapperNames(wrapperFolder, root, j);
    var bi := WrapperBaseName(root, i);
    var bj := WrapperBaseName(root, j);
    var ci := bi + ".cpp";
    var mj := bj + ".mm";
    assert ci[|ci| - 1] == 'p' && mj[|mj| - 1] == 'm';
    if i != j {
      BaseNamesDistinct(root, i, j);
      assert (bi + ".cpp")[..|bi|] == bi && (bj + ".cpp")[..|bj|] == bj;
      assert (bi + ".mm")[..|bi|] == bi && (bj + ".mm")[..|bj|] == bj;
    }
  }

  lemma {:induction false} BaseNamesDistinct(root: string, i: nat, j: nat)
    requires i != j
    ensures WrapperBaseName(root, i) != WrapperBaseName(root, j)
  {
    var bi := WrapperBaseName(root, i);
    var bj := WrapperBaseName(root, j);
    if bi == bj {
      if i != 0 && j != 0 {
        assert NatToString(i) == bi[|root|..];
        assert NatToString(j) == bj[|root|..];
        NatToStringInjective(i, j);
      }
    }
  }

  /** A '.' with no other '.' after it is the last one. */
  lemma {:induction false} LastDotAt(name: string, i: nat)
    requires i < |name| && name[i] == '.'
    requires forall k :: i < k < |name| ==> name[k] != '.'
    ensures LastDot(name) == i
  {
  }

  /** The last '.' of a + "." + b, when b has none, is the one between them. */
  lemma {:induction false} LastDotOf(a: string, b: string)
    requires forall k :: 0 <= k < |b| ==> b[k] != '.'
    ensures LastDot(a + "." + b) == |a|
  {
    var n := a + "." + b;
    forall k | |a| < k < |n| ensures n[k] != '.' {
      assert n[k] == b[k - |a| - 1];
    }
    LastDotAt(n, |a|);
  }

  /**
   With a '.' in the root, File::withFileExtension cuts the name at that dot, so
   the numbered wrappers all land on one file: "Juce.Code1" and "Juce.Code2" both
   become "Juce.cpp".
   */
  lemma {:induction false} DottedRootCollides(wrapperFolder: string)
    ensures SourceWrapperCpp(wrapperFolder, "Juce.Code", 1) == FilePath(wrapperFolder, "Juce.cpp")
    ensures SourceWrapperCpp(wrapperFolder, "Juce.Code", 2) == FilePath(wrapperFolder, "Juce.cpp")
  {
    assert WrapperBaseName("Juce.Code", 1) == "Juce.Code1";
    assert WrapperBaseName("Juce.Code", 2) == "Juce.Code2";
    LastDotOf("Juce", "Code1");
    LastDotOf("Juce", "Code2");
    assert "Juce.Code1" == "Juce" + "." + "Code1";
    assert "Juce.Code2" == "Juce" + "." + "Code2";
  }

  /**
   The JUCE file wrapper `fileNumber` includes: wrapper 0 pulls in the whole
   amalgamation or its template, wrapper n the n-th separate amalgamated file.
   */
  function WrapperIncludeTarget(fileNumber: nat, fullyAmalgamated: bool): (target: string)
    ensures |target| > 13 && target[|target| - 4..] == ".cpp"
    ensures fileNumber != 0 || !fullyAmalgamated ==> target[..13] == "amalgamation/"
    ensures fileNumber == 0 && fullyAmalgamated ==> target == "juce_amalgamated.cpp"
  {
    if fileNumber == 0 then
      (if fullyAmalgamated then "juce_amalgamated.cpp" else "amalgamation/juce_amalgamated_template.cpp")
    else "amalgamation/juce_amalgamated" + NatToString(fileNumber) + ".cpp"
  }

  /** Different wrappers include different JUCE files. */
  lemma {:induction false} WrapperIncludeTargetsDistinct(i: nat, j: nat, fullyAmalgamated: bool)
    requires i != j
    ensures WrapperIncludeTarget(i, fullyAmalgamated) != WrapperIncludeTarget(j, fullyAmalgamated)
  {
    var prefix := "amalgamation/juce_amalgamated";
    var ti := WrapperIncludeTarget(i, fullyAmalgamated);
    var tj := WrapperIncludeTarget(j, fullyAmalgamated);
    if i != 0 && j != 0 {
      NumberedTargetDigits(i);
      NumberedTargetDigits(j);
      if ti == tj {
        var si := NatToString(i);
        var sj := NatToString(j);
        assert |si| == |sj|;
        assert si == ti[|prefix|..|prefix| + |si|];
        assert sj == tj[|prefix|..|prefix| + |sj|];
        NatToStringInjective(i, j);
      }
    } else if i == 0 {
      NumberedTargetDigits(j);
      ZeroTargetDiffers(j, fullyAmalgamated);
    } else {
      NumberedTargetDigits(i);
      ZeroTargetDiffers(i, fullyAmalgamated);
    }
  }

  lemma {:induction false} NumberedTargetDigits(n: nat)
    requires n != 0
    ensures var t := WrapperIncludeTarget(n, false);
            |t| > 29 && t[..29] == "amalgamation/juce_amalgamated" && IsDigit(t[29])
  {
    var t := WrapperIncludeTarget(n, false);
    assert t[29] == NatToString(n)[0];
  }

  lemma {:induction false} ZeroTargetDiffers(n: nat, fullyAmalgamated: bool)
    requires n != 0
    requires var t := WrapperIncludeTarget(n, false);
             |t| > 29 && t[..29] == "amalgamation/juce_amalgamated" && IsDigit(t[29])
    ensures WrapperIncludeTarget(0, fullyAmalgamated) != WrapperIncludeTarget(n, fullyAmalgamated)
  {
    var t := WrapperIncludeTarget(n, fullyAmalgamated);
    assert t == WrapperIncludeTarget(n, false);
    if fullyAmalgamated {
      assert WrapperIncludeTarget(0, true)[0] == 'j' && t[0] == 'a';
    } else {
      assert WrapperIncludeTarget(0, false)[29] == '_';
    }
  }
}
