/** The `-vMAJOR.MINOR` part of a GGUF file name. */
module NameVersion {
  import opened Decimal

  const U32_MAX: nat := 0xFFFF_FFFF

  type U32 = x: nat | x <= U32_MAX

  /** Two `u32` fields; equality is field by field. */
  datatype Version = Version(major: U32, minor: U32)

  /** `Version::new`. */
  function New(major: U32, minor: U32): (v: Version)
    ensures v.major == major && v.minor == minor
  {
    Version(major, minor)
  }

  /** `Display for Version`: `v`, the major number, `.`, the minor number. */
  function Display(v: Version): (s: string)
    ensures |s| == 2 + |Dec(v.major)| + |Dec(v.minor)| && s[0] == 'v' && s[1 + |Dec(v.major)|] == '.'
    ensures s[1..1 + |Dec(v.major)|] == Dec(v.major) && s[2 + |Dec(v.major)|..] == Dec(v.minor)
  {
    "v" + Dec(v.major) + "." + Dec(v.minor)
  }

  /** The only `.` in the text is the one between the numbers. */
  lemma DotPosition(v: Version, i: nat)
    requires i < |Display(v)| && Display(v)[i] == '.'
    ensures i == 1 + |Dec(v.major)|
  {
    var s, d := Display(v), |Dec(v.major)|;
    assert forall k :: 1 <= k < 1 + d ==> s[k] == Dec(v.major)[k - 1];
    assert forall k :: 1 + d < k < |s| ==> s[k] == Dec(v.minor)[k - 2 - d];
  }

  /** Different versions print differently, so comparing the text compares the fields. */
  lemma DisplayInjective(v: Version, w: Version)
    requires Display(v) == Display(w)
    ensures v == w
  {
    var s := Display(v);
    DotPosition(w, 1 + |Dec(v.major)|);
    DecInjective(v.major, w.major);
    DecInjective(v.minor, w.minor);
  }
}
