/** The copyright line's name in src/components/templates/Footer.tsx. The
    personal data are parameters: fullName is optional, name is not. */
module Footer {
  import opened Wrappers
  import opened Text

  const DefaultName := "Portfolio"

  /** personalInfo.fullName?.trim() || personalInfo.name?.trim() || 'Portfolio'. */
  function DisplayName(fullName: Option<string>, name: string): (r: string)
    ensures r != []
    ensures fullName.Some? && Trim(fullName.value) != [] ==> r == Trim(fullName.value)
    ensures (fullName.None? || Trim(fullName.value) == []) && Trim(name) != [] ==> r == Trim(name)
    ensures (fullName.None? || Trim(fullName.value) == []) && Trim(name) == [] ==> r == DefaultName
  {
    if fullName.Some? && Trim(fullName.value) != [] then Trim(fullName.value)
    else if Trim(name) != [] then Trim(name)
    else DefaultName
  }

  /** The name shown is already trimmed: it neither starts nor ends with
      whitespace. */
  lemma DisplayNameTrimmed(fullName: Option<string>, name: string)
    ensures var r := DisplayName(fullName, name);
            Trim(r) == r && !IsSpace(r[0]) && !IsSpace(r[|r| - 1])
  {
    var r := DisplayName(fullName, name);
    if fullName.Some? && Trim(fullName.value) != [] {
      TrimmedEnds(fullName.value);
    } else if Trim(name) != [] {
      TrimmedEnds(name);
    } else {
      DefaultNameTrimmed();
    }
  }

  /** A non-empty trim is its own trim and has no whitespace at either end. */
  lemma TrimmedEnds(s: string)
    requires Trim(s) != []
    ensures var t := Trim(s); Trim(t) == t && !IsSpace(t[0]) && !IsSpace(t[|t| - 1])
  {
    TrimIdempotent(s);
  }

  lemma DefaultNameTrimmed()
    ensures Trim(DefaultName) == DefaultName
    ensures !IsSpace(DefaultName[0]) && !IsSpace(DefaultName[|DefaultName| - 1])
  {
    var d := DefaultName;
    assert d[0] == 'P' && d[|d| - 1] == 'o';
    TrimOfTrimmed(d);
  }

  /** A fullName made only of whitespace counts as missing: the name is
      used instead, and the default when the name is blank too. */
  lemma BlankFullNameFallsThrough(fullName: string, name: string)
    requires forall i :: 0 <= i < |fullName| ==> IsSpace(fullName[i])
    ensures DisplayName(Some(fullName), name) == DisplayName(None, name)
    ensures (forall i :: 0 <= i < |name| ==> IsSpace(name[i])) ==>
              DisplayName(Some(fullName), name) == DefaultName
  {
    TrimEmptyIff(fullName);
    TrimEmptyIff(name);
  }
}
