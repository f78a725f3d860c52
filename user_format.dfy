/** `formatUserName` and `formatInitials` (src/lib/utils.ts). */
module UserFormat {
  import opened Text

  /** `${firstName} ${lastName}`. */
  function FormatUserName(firstName: string, lastName: string): (r: string)
    ensures |r| == |firstName| + 1 + |lastName|
  {
    firstName + " " + lastName
  }

  /** `s.charAt(0)`: the first character, or the empty string. */
  function CharAt0(s: string): (r: string)
    ensures |r| <= 1
    ensures s != [] ==> r == [s[0]]
    ensures s == [] ==> r == []
  {
    if s == [] then [] else [s[0]]
  }

  /** `${firstName.charAt(0)}${lastName.charAt(0)}`.toUpperCase(). */
  function FormatInitials(firstName: string, lastName: string): (r: string)
    ensures |r| == (if firstName == [] then 0 else 1) + (if lastName == [] then 0 else 1)
    ensures forall i :: 0 <= i < |r| ==> !IsAsciiLower(r[i])
    ensures firstName != [] ==> r[0] == UpperChar(firstName[0])
    ensures lastName != [] ==> r[|r| - 1] == UpperChar(lastName[0])
  {
    Upper(CharAt0(firstName) + CharAt0(lastName))
  }

  /** A full name built from two space-free names splits back into them at the space. */
  lemma FormatUserNameSplits(firstName: string, lastName: string)
    requires ' ' !in firstName && ' ' !in lastName
    ensures Split(FormatUserName(firstName, lastName), ' ') == [firstName, lastName]
  {
    assert Join([firstName, lastName], ' ') == FormatUserName(firstName, lastName) by {
      assert [firstName, lastName][1..] == [lastName];
    }
    SplitJoin([firstName, lastName], ' ');
  }
}
