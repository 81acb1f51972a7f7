/** `pad` of src/menus/RoyaleLobby.ts, which left-pads the string form of a number. */
module RoyaleLobby {
  import opened Wrappers
  import opened Strings

  /** `z = z || "0"`: an absent or empty pad text becomes "0". */
  function PadText(z: Option<string>): (t: string)
    ensures t != ""
    ensures z.Some? && z.value != "" ==> t == z.value
  {
    if z.Some? && z.value != "" then z.value else "0"
  }

  /** `pad(n, width, z)` with `n` already in string form (`n + ""`): the text itself when
      it is at least `width` long, otherwise `width - |n|` copies of the pad text
      followed by it. */
  function Pad(n: string, width: int, z: Option<string>): (r: string)
    ensures EndsWith(r, n)
    ensures |n| >= width ==> r == n
    ensures |n| < width ==> r == Repeat(PadText(z), width - |n|) + n
  {
    if |n| >= width then n else Repeat(PadText(z), width - |n|) + n
  }

  /** `pad` of a number. */
  function PadNumber(n: int, width: int, z: Option<string>): (r: string)
    ensures EndsWith(r, IntToString(n))
    ensures width <= |IntToString(n)| ==> r == IntToString(n)
  {
    Pad(IntToString(n), width, z)
  }

  /** With a one-character pad text the result is exactly `width` long, unless the
      number's text is already longer. */
  lemma PadLength(n: string, width: int, z: Option<string>)
    requires |PadText(z)| == 1
    ensures |Pad(n, width, z)| == if |n| >= width then |n| else width
  {
  }

  /** The padding is made of the pad text only. */
  lemma PadIsPadText(n: string, width: int, z: Option<string>)
    requires |n| < width && |PadText(z)| == 1
    ensures forall i :: 0 <= i < width - |n| ==> Pad(n, width, z)[i] == PadText(z)[0]
  {
    RepeatOneChar(PadText(z), width - |n|);
  }

  lemma {:induction false} RepeatOneChar(z: string, k: nat)
    requires |z| == 1
    ensures forall i :: 0 <= i < k ==> Repeat(z, k)[i] == z[0]
  {
    if k > 0 {
      RepeatOneChar(z, k - 1);
    }
  }

  /** Padding twice to the same width with a one-character pad text pads once. */
  lemma PadIdempotent(n: string, width: int, z: Option<string>)
    requires |PadText(z)| == 1
    ensures Pad(Pad(n, width, z), width, z) == Pad(n, width, z)
  {
    PadLength(n, width, z);
  }

  /** Without a pad text, numbers are padded with zeros: `pad(7, 3)` is "007". */
  lemma PadSevenToThree()
    ensures PadNumber(7, 3, None) == "007"
  {
    assert Repeat("0", 2) == "00";
  }
}
