/** The image container's size rule: default size classes apply unless the
    caller's className or a width/height prop overrides them, and inline
    width and height are set only when both props are given. */
module ImageContainer {
  import opened Wrappers

  /** The size classes used when nothing overrides them. */
  const DefaultSizeClasses: string := "w-10 h-10 md:w-15 md:h-15"

  /** The fixed classes between the size classes and the caller's className. */
  const FixedClasses: string := " " + "rounded-lg border-5 border-white overflow-hidden shadow-sm" + " "


  /** `s.includes(t)`: `t` occurs in `s` at some position. */
  predicate Includes(s: string, t: string) {
    exists i :: 0 <= i <= |s| - |t| && OccursAt(s, t, i)
  }

  /** `t` occurs in `s` starting at index `i`. */
  predicate OccursAt(s: string, t: string, i: int) {
    0 <= i <= |s| - |t| && s[i..i + |t|] == t
  }

  /** `hasSizeOverride`: the className mentions "w-" or "h-" anywhere, or a
      width or height prop is given. */
  predicate HasSizeOverride(className: string, width: Option<string>, height: Option<string>) {
    Includes(className, "w-") || Includes(className, "h-") || Truthy(width) || Truthy(height)
  }

  /** `sizeClasses`: empty under an override, the defaults otherwise. */
  function SizeClasses(className: string, width: Option<string>, height: Option<string>): (r: string)
    ensures r == DefaultSizeClasses <==> !HasSizeOverride(className, width, height)
    ensures r != DefaultSizeClasses ==> r == ""
  {
    if HasSizeOverride(className, width, height) then "" else DefaultSizeClasses
  }

  /** `containerStyle`: inline width and height, only when both are given. */
  function ContainerStyle(width: Option<string>, height: Option<string>): (style: Option<(string, string)>)
    ensures style.Some? <==> Truthy(width) && Truthy(height)
    ensures style.Some? ==> style.value == (width.value, height.value)
  {
    if Truthy(width) && Truthy(height) then Some((width.value, height.value)) else None
  }

  /** A width alone overrides the default size but sets no inline style. */
  lemma WidthAloneOverridesWithoutStyle(className: string, width: Option<string>, height: Option<string>)
    requires Truthy(width) && !Truthy(height)
    ensures HasSizeOverride(className, width, height)
    ensures SizeClasses(className, width, height) == ""
    ensures ContainerStyle(width, height) == None
  {
  }

  /** Without props, a className holding a size class such as "w-24" overrides
      the default, while a plain "rounded" does not. Because the test is a
      substring match, any class containing "w-" or "h-" also counts, for
      instance "shadow-md" (whose "w-" comes from "shadow"). */
  lemma OverrideIsSubstringMatch()
    ensures HasSizeOverride("w-24", None, None)
    ensures !HasSizeOverride("rounded", None, None)
    ensures HasSizeOverride("shadow-md", None, None)
  {
    assert OccursAt("w-24", "w-", 0);
    assert OccursAt("shadow-md", "w-", 5);
    forall i ensures !OccursAt("rounded", "w-", i) && !OccursAt("rounded", "h-", i) {
      if 0 <= i <= |"rounded"| - 2 {
        assert "rounded"[i..i + 2][1] == "rounded"[i + 1] != '-';
      }
    }
  }

  /** The container's class string. */
  function ClassString(className: string, width: Option<string>, height: Option<string>): string {
    "inline-block " + SizeClasses(className, width, height) + FixedClasses + className
  }

  /** The class string starts with "inline-block ", ends with the caller's
      className, and carries the default size classes exactly when there is no
      override. */
  lemma ClassStringShape(className: string, width: Option<string>, height: Option<string>)
    ensures var cs := ClassString(className, width, height);
      && |cs| >= |className|
      && cs[|cs| - |className|..] == className
      && cs[..13] == "inline-block "
      && (!HasSizeOverride(className, width, height) <==> cs[13..13 + |DefaultSizeClasses|] == DefaultSizeClasses)
  {
    var cs := ClassString(className, width, height);
    var sc := SizeClasses(className, width, height);
    assert cs == "inline-block " + sc + FixedClasses + className;
    assert cs[|cs| - |className|..] == className;
    if HasSizeOverride(className, width, height) {
      assert cs == "inline-block " + FixedClasses + className;
      assert cs[13..13 + |DefaultSizeClasses|][0] == FixedClasses[0] != DefaultSizeClasses[0];
    }
  }
}
