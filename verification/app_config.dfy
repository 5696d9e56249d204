/**
 The configuration-flag section of the generated AppConfig.h: one line per JUCE
 config flag, defined to 1, defined to 0 or left commented out to fall back to
 JUCE's default, all wrapped in a comment when the linkage mode cannot use them.
 */
module AppConfig {
  import opened Optional
  import opened ArtifactPlan

  /** The values a project stores for a flag switched on or off; anything else means "use the default". */
  const ConfigFlagEnabled := "enabled"
  const ConfigFlagDisabled := "disabled"

  /** Both line prefixes are eleven characters wide, so the symbols line up in one column. */
  const DefinePrefix := "#define    "
  const CommentedDefinePrefix := "//#define  "

  datatype ConfigFlag = ConfigFlag(symbol: string, value: string)

  datatype FlagSetting = On | Off | Default

  /** What a stored flag value means. */
  function SettingOf(value: string): (s: FlagSetting)
    ensures s == On <==> value == ConfigFlagEnabled
    ensures s == Off <==> value == ConfigFlagDisabled
  {
    if value == ConfigFlagEnabled then On
    else if value == ConfigFlagDisabled then Off
    else Default
  }

  /** The line writeAppConfig emits for one flag. */
  function FlagLine(flag: ConfigFlag): (line: string)
    ensures |line| >= 11 + |flag.symbol|
    ensures line[11..11 + |flag.symbol|] == flag.symbol
    ensures line[0] == '/' <==> SettingOf(flag.value) == Default
  {
    match SettingOf(flag.value)
    case On => DefinePrefix + flag.symbol + " 1"
    case Off => DefinePrefix + flag.symbol + " 0"
    case Default => CommentedDefinePrefix + flag.symbol
  }

  /** Reads a flag line back: the symbol and whether it is defined to 1, to 0, or commented out. */
  function ParseFlagLine(line: string): Option<(string, FlagSetting)> {
    if |line| >= 11 && line[..11] == CommentedDefinePrefix then
      Some((line[11..], Default))
    else if |line| >= 13 && line[..11] == DefinePrefix && line[|line| - 2] == ' '
            && (line[|line| - 1] == '1' || line[|line| - 1] == '0') then
      Some((line[11..|line| - 2], if line[|line| - 1] == '1' then On else Off))
    else
      None
  }

  /** Every flag line reads back as its symbol and the setting its value stands for. */
  lemma {:induction false} FlagLineRoundTrip(flag: ConfigFlag)
    ensures ParseFlagLine(FlagLine(flag)) == Some((flag.symbol, SettingOf(flag.value)))
  {
    var line := FlagLine(flag);
    var n := |flag.symbol|;
    match SettingOf(flag.value)
    case On =>
      assert line[..11] == DefinePrefix;
      assert line[0] != CommentedDefinePrefix[0];
      assert line[11..|line| - 2] == flag.symbol;
    case Off =>
      assert line[..11] == DefinePrefix;
      assert line[0] != CommentedDefinePrefix[0];
      assert line[11..|line| - 2] == flag.symbol;
    case Default =>
      assert line[..11] == CommentedDefinePrefix;
      assert line[11..] == flag.symbol;
  }

  /** With a statically linked JUCE, or none, the flags cannot take effect. */
  predicate ConfigsInactive(mode: LinkageMode) {
    mode == UseLinkedJuce || mode == NotLinkedToJuce
  }

  const InactiveNote: seq<string> := [
    "/*" + " NOTE: These configs aren't available when you're linking to the juce library statically!",
    "         If you need to set a configuration that differs from the default, you'll need",
    "         to include the amalgamated Juce files.",
    ""]

  const InactiveClose: seq<string> := ["", "*/"]

  function FlagLines(flags: seq<ConfigFlag>): (lines: seq<string>)
    ensures |lines| == |flags|
    ensures forall k :: 0 <= k < |flags| ==> lines[k] == FlagLine(flags[k])
  {
    if |flags| == 0 then [] else [FlagLine(flags[0])] + FlagLines(flags[1..])
  }

  /** The flag section of AppConfig.h, one string per line. */
  function ConfigFlagSection(mode: LinkageMode, flags: seq<ConfigFlag>): seq<string> {
    if ConfigsInactive(mode) then InactiveNote + FlagLines(flags) + InactiveClose
    else FlagLines(flags)
  }

  /** Where the first flag line sits in the section: after the opening note when the flags are inactive. */
  function FlagOffset(mode: LinkageMode): nat {
    if ConfigsInactive(mode) then |InactiveNote| else 0
  }

  /** The length of the section, and the line that flag `k` occupies in it. */
  lemma {:induction false} SectionLineOfFlag(mode: LinkageMode, flags: seq<ConfigFlag>, k: nat)
    requires k < |flags|
    ensures |ConfigFlagSection(mode, flags)| == |flags| + (if ConfigsInactive(mode) then 6 else 0)
    ensures ConfigFlagSection(mode, flags)[FlagOffset(mode) + k] == FlagLines(flags)[k]
  {
    if ConfigsInactive(mode) {
      ConcatMiddle(InactiveNote, FlagLines(flags), InactiveClose, k);
    }
  }

  lemma {:induction false} ConcatMiddle<T>(a: seq<T>, b: seq<T>, c: seq<T>, k: nat)
    requires k < |b|
    ensures |a + b + c| == |a| + |b| + |c| && (a + b + c)[|a| + k] == b[k]
  {
  }

  /** An inactive section opens a comment on its first line and closes it on its last. */
  lemma {:induction false} InactiveSectionIsComment(mode: LinkageMode, flags: seq<ConfigFlag>)
    requires ConfigsInactive(mode)
    ensures var lines := ConfigFlagSection(mode, flags);
            |lines| == |flags| + 6 && lines[0][..2] == "/*" && lines[|lines| - 1] == "*/"
  {
    var body := FlagLines(flags);
    var lines := InactiveNote + body + InactiveClose;
    assert lines[0] == InactiveNote[0];
    assert InactiveNote[0][..2] == "/*";
    assert lines[|lines| - 1] == InactiveClose[1];
  }

  /**
   The section has a line per flag, in order. When the mode cannot use the flags
   it opens a comment before them and closes it after them, so none takes effect.
   */
  lemma {:induction false} ConfigFlagSectionShape(mode: LinkageMode, flags: seq<ConfigFlag>)
    ensures var lines := ConfigFlagSection(mode, flags);
            && |lines| == |flags| + (if ConfigsInactive(mode) then 6 else 0)
            && (forall k :: 0 <= k < |flags| ==>
                  ParseFlagLine(lines[FlagOffset(mode) + k]) == Some((flags[k].symbol, SettingOf(flags[k].value))))
            && (ConfigsInactive(mode) ==> lines[0][..2] == "/*" && lines[|lines| - 1] == "*/")
  {
    var lines := ConfigFlagSection(mode, flags);
    if ConfigsInactive(mode) {
      InactiveSectionIsComment(mode, flags);
    } else {
      assert lines == FlagLines(flags);
    }
    forall k | 0 <= k < |flags|
      ensures ParseFlagLine(lines[FlagOffset(mode) + k]) == Some((flags[k].symbol, SettingOf(flags[k].value)))
    {
      SectionLineOfFlag(mode, flags, k);
      assert FlagLines(flags)[k] == FlagLine(flags[k]);
      FlagLineRoundTrip(flags[k]);
    }
  }
}
