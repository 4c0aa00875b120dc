/**
 * The outline-levels setting read at the start of the outline step: text of
 * the form "levels:expand", text holding one number, or a number.
 */
module Levels {
  import opened Wrappers
  import opened RubyText

  datatype LevelsSetting = Text(s: string) | Number(n: int)

  /** How deep the outline goes and how deep it starts expanded. */
  datatype OutlineLevels = OutlineLevels(numLevels: int, expandLevels: int)

  /** Position of the first ':' in `s`, if any. */
  function FirstColon(s: string): (r: Option<nat>)
    ensures r.None? <==> ':' !in s
    ensures r.Some? ==> r.value < |s| && s[r.value] == ':' && ':' !in s[..r.value]
  {
    if s == [] then None
    else if s[0] == ':' then Some(0)
    else match FirstColon(s[1..])
      case None => None
      case Some(i) =>
        assert s[..i + 1] == [s[0]] + s[1..][..i];
        Some(i + 1)
  }

  /** The document's `toclevels` attribute as an integer, 2 when it is unset. */
  function DocTocLevels(toclevels: Option<string>): int {
    match toclevels
    case None => 2
    case Some(t) => ToI(t)
  }

  /**
   * Text with a colon is split at the first colon: an empty left part falls
   * back to the document's toclevels, the right part gives the expand depth.
   * Text without a colon sets both depths; a number sets both.
   */
  function ParseLevels(setting: LevelsSetting, toclevels: Option<string>): OutlineLevels {
    match setting
    case Number(n) => OutlineLevels(n, n)
    case Text(s) =>
      match FirstColon(s)
      case None => OutlineLevels(ToI(s), ToI(s))
      case Some(i) =>
        OutlineLevels(if i == 0 then DocTocLevels(toclevels) else ToI(s[..i]), ToI(s[i + 1..]))
  }

  /** Only the first colon separates: everything after it is the expand part. */
  lemma SplitAtFirstColon(left: string, right: string, toclevels: Option<string>)
    requires ':' !in left
    ensures ParseLevels(Text(left + ":" + right), toclevels)
         == OutlineLevels(if left == [] then DocTocLevels(toclevels) else ToI(left), ToI(right))
  {
    var s := left + ":" + right;
    assert s[|left|] == ':';
    assert s[..|left|] == left;
    assert s[|left| + 1..] == right;
  }

  /** Text "n:m" written from two numbers parses back to those numbers. */
  lemma LevelsRoundTrip(n: nat, m: nat, toclevels: Option<string>)
    ensures ParseLevels(Text(NatToString(n) + ":" + NatToString(m)), toclevels) == OutlineLevels(n, m)
  {
    SplitAtFirstColon(NatToString(n), NatToString(m), toclevels);
    ToIOfDecimal(n, []);
    ToIOfDecimal(m, []);
    assert NatToString(n) + [] == NatToString(n);
    assert NatToString(m) + [] == NatToString(m);
  }

  /** ":m" keeps the document's toclevels as the depth and expands m levels. */
  lemma EmptyDepthUsesTocLevels(m: nat, toclevels: Option<string>)
    ensures ParseLevels(Text(":" + NatToString(m)), toclevels) == OutlineLevels(DocTocLevels(toclevels), m)
  {
    SplitAtFirstColon([], NatToString(m), toclevels);
    assert [] + ":" + NatToString(m) == ":" + NatToString(m);
    ToIOfDecimal(m, []);
    assert NatToString(m) + [] == NatToString(m);
  }

  /** A single number sets both depths; so does text without a colon. */
  lemma SingleNumberSetsBoth(setting: LevelsSetting, toclevels: Option<string>)
    requires setting.Text? ==> ':' !in setting.s
    ensures ParseLevels(setting, toclevels).numLevels == ParseLevels(setting, toclevels).expandLevels
    ensures setting.Text? ==> ParseLevels(setting, toclevels).numLevels == ToI(setting.s)
  {
  }
}
