/**
 * `getColorForName`: the pastel colour of a team or user avatar. The name is
 * lower-cased, hashed without the per-step 32-bit wrap, made non-negative
 * with `Math.abs`, and read into hue, saturation and lightness.
 */
module ColorUtils {
  import opened JsCore
  import opened ColorHash

  /** Hue, saturation and lightness read out of the raw hash. */
  function NameHsl(hash: int): (c: Hsl)
    ensures 0 <= c.hue < 360
    ensures 25 <= c.saturation <= 50
    ensures 75 <= c.lightness <= 90
    ensures hash == 0 ==> c == Hsl(0, 25, 75)
  {
    var h := Abs(hash);
    Hsl(h % 360, 25 + h % 26, 75 + h % 16)
  }

  /** The colour of a name: the function the handler is proved against. */
  function ColorForName(name: string): string {
    HslText(NameHsl(UnwrappedHash(Utf16(ToLower(name)))))
  }

  /** `getColorForName(name)`: the hash loop, then straight-line arithmetic. */
  method GetColorForName(name: string) returns (color: string)
    ensures color == ColorForName(name)
  {
    var normalized := ToLower(name);
    var hash := ComputeUnwrappedHash(Utf16(normalized));
    hash := Abs(hash);
    var hue := hash % 360;
    var saturation := 25 + hash % 26;
    var lightness := 75 + hash % 16;
    color := HslText(Hsl(hue, saturation, lightness));
  }

  /** Upper- and lower-case spellings of a name get the same colour. */
  lemma ColorIgnoresCase(name: string)
    ensures ColorForName(ToUpper(name)) == ColorForName(name)
    ensures ColorForName(ToLower(name)) == ColorForName(name)
  {
    assert ToLower(ToUpper(name)) == ToLower(name) by {
      forall i | 0 <= i < |name|
        ensures ToLower(ToUpper(name))[i] == ToLower(name)[i]
      {
        var c := name[i];
        assert LowerChar(UpperChar(c)) == LowerChar(c);
      }
    }
    ToLowerIdempotent(name);
  }

  /** Names that agree once lower-cased get the same colour. */
  lemma ColorDeterministic(a: string, b: string)
    requires ToLower(a) == ToLower(b)
    ensures ColorForName(a) == ColorForName(b)
  {
  }

  /** The colour of the empty name. */
  lemma EmptyNameColor()
    ensures ColorForName("") == "hsl(0, 25%, 75%)"
  {
    assert ToLower("") == "";
    assert Utf16("") == [];
    var c := NameHsl(0);
    assert c == Hsl(0, 25, 75);
    assert IntToString(0) == "0";
    assert IntToString(25) == "25" by {
      assert NatToString(25) == NatToString(2) + [DigitChar(5)];
    }
    assert IntToString(75) == "75" by {
      assert NatToString(75) == NatToString(7) + [DigitChar(5)];
    }
  }
}
