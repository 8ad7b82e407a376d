/** The shared form helpers: `isBlank`, `capitalize` and `validateLength`. */
module Validation {
  import opened Options
  import opened Strings

  /**
   * `isBlank(str?)`: true for a missing string and for one that `trim` empties, that is,
   * one made of whitespace only (the empty string included).
   */
  predicate IsBlank(s: Option<string>): (b: bool)
    ensures b <==> s.None? || AllWhitespace(s.value)
    ensures s == Some("") ==> b
  {
    s.None? || Trim(s.value) == []
  }

  /** `capitalize(str)`: the first character upper-cased, the rest untouched, `""` kept. */
  function Capitalize(s: string): (r: string)
    ensures |r| == |s|
    ensures s != [] ==> r[0] == ToUpperAscii(s[0]) && r[1..] == s[1..]
    ensures s == [] ==> r == []
  {
    if s == [] then [] else [ToUpperAscii(s[0])] + s[1..]
  }

  function RequiredMessage(field: string, min: int): string {
    Capitalize(field) + " is required (min " + IntToDecimal(min) + " characters)"
  }

  function AtLeastMessage(field: string, min: int): string {
    Capitalize(field) + " must be at least " + IntToDecimal(min) + " characters"
  }

  function AtMostMessage(field: string, max: int): string {
    Capitalize(field) + " must be at most " + IntToDecimal(max) + " characters"
  }

  /** `max && …`: an upper bound applies only when it is given and not zero. */
  predicate MaxApplies(max: Option<int>) {
    max.Some? && max.value != 0
  }

  /** The three messages never coincide, so a caller can tell which rule fired. */
  lemma MessagesDistinct(field: string, min: int, max: int)
    ensures RequiredMessage(field, min) != AtLeastMessage(field, min)
    ensures RequiredMessage(field, min) != AtMostMessage(field, max)
    ensures AtLeastMessage(field, min) != AtMostMessage(field, max)
  {
    var c := Capitalize(field);
    var dMin, dMax := IntToDecimal(min), IntToDecimal(max);
    DifferentMiddles(c, " is required (min ", " must be at least ", dMin, dMin, " characters)", " characters", 1);
    DifferentMiddles(c, " is required (min ", " must be at most ", dMin, dMax, " characters)", " characters", 1);
    DifferentMiddles(c, " must be at least ", " must be at most ", dMin, dMax, " characters", " characters", 12);
  }

  /** Two messages with the same lead that differ at position `i` of their middle part differ. */
  lemma DifferentMiddles(c: string, x: string, y: string, s: string, t: string, u: string, v: string, i: nat)
    requires i < |x| && i < |y| && x[i] != y[i]
    ensures c + x + s + u != c + y + t + v
  {
    assert (c + x + s + u)[|c| + i] == x[i];
    assert (c + y + t + v)[|c| + i] == y[i];
  }

  /** The mutable record a caller hands to `validateLength`, field name to message. */
  class ErrorRecord {
    var entries: map<string, string>

    constructor ()
      ensures entries == map[]
    {
      entries := map[];
    }
  }

  /**
   * `validateLength(field, value, min, max, errors)`: writes at most one message, under
   * `field`, into the record it is given and hands back that same record.
   */
  method ValidateLength(field: string, value: string, min: int, max: Option<int>, errors: ErrorRecord)
    returns (r: ErrorRecord)
    modifies errors
    ensures r == errors
    ensures forall k :: k != field ==> (k in errors.entries <==> k in old(errors.entries))
    ensures forall k :: k != field && k in errors.entries ==> errors.entries[k] == old(errors.entries)[k]
    ensures IsBlank(Some(value)) ==> errors.entries == old(errors.entries)[field := RequiredMessage(field, min)]
    ensures !IsBlank(Some(value)) && Utf16Length(value) < min ==>
      errors.entries == old(errors.entries)[field := AtLeastMessage(field, min)]
    ensures !IsBlank(Some(value)) && min <= Utf16Length(value) && MaxApplies(max) && Utf16Length(value) > max.value ==>
      errors.entries == old(errors.entries)[field := AtMostMessage(field, max.value)]
    ensures !IsBlank(Some(value)) && min <= Utf16Length(value) && !(MaxApplies(max) && Utf16Length(value) > max.value) ==>
      errors.entries == old(errors.entries)
  {
    if IsBlank(Some(value)) {
      errors.entries := errors.entries[field := RequiredMessage(field, min)];
      return errors;
    }
    if Utf16Length(value) < min {
      errors.entries := errors.entries[field := AtLeastMessage(field, min)];
    } else if MaxApplies(max) && Utf16Length(value) > max.value {
      errors.entries := errors.entries[field := AtMostMessage(field, max.value)];
    }
    return errors;
  }
}
