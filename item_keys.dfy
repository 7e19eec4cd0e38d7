/** Translation keys of the project and experience cards: the item's id with
    every '-' removed, followed by the field name
    (src/components/molecules/ProjectCard.tsx,
    src/components/molecules/ExperienceCard.tsx). */
module ItemKeys {
  import opened Text

  /** id.replace(/-/g, ''). */
  function ItemKey(id: string): (k: string)
    ensures '-' !in k
    ensures forall c :: c != '-' ==> (c in k <==> c in id)
    ensures |id| == 1 ==> k == (if id == "-" then "" else id)
  {
    RemoveAll(id, '-')
  }

  /** The key of a concatenation is the concatenation of the keys: together
      with the one-character case of ItemKey, the key is the id with every
      '-' dropped and every other character kept in place. */
  lemma ItemKeyAppend(a: string, b: string)
    ensures ItemKey(a + b) == ItemKey(a) + ItemKey(b)
  {
    RemoveAllAppend(a, b, '-');
  }

  /** The translation key `${key}.${field}`. */
  function FieldKey(id: string, field: string): (k: string)
    ensures |k| == |ItemKey(id)| + 1 + |field|
    ensures k[..|ItemKey(id)|] == ItemKey(id) && k[|ItemKey(id)|] == '.'
    ensures k[|ItemKey(id)| + 1..] == field
    ensures '-' !in field ==> '-' !in k
  {
    ItemKey(id) + "." + field
  }

  /** Different fields of one item have different keys. */
  lemma FieldKeysDiffer(id: string, field1: string, field2: string)
    requires field1 != field2
    ensures FieldKey(id, field1) != FieldKey(id, field2)
  {
    var n := |ItemKey(id)| + 1;
    assert FieldKey(id, field1)[n..] == field1;
    assert FieldKey(id, field2)[n..] == field2;
  }

  /** A key has no hyphen left to strip: deriving it again changes nothing. */
  lemma ItemKeyIdempotent(id: string)
    ensures ItemKey(ItemKey(id)) == ItemKey(id)
  {
    RemoveAllIdempotent(id, '-');
  }

  /** Ids that differ only in their hyphens share their translations. */
  lemma HyphenatedIdsShareKeys()
    ensures ItemKey("my-app") == ItemKey("myapp") == "myapp"
  {
    assert "my-app"[2] == '-';
    assert "my-app" == "my" + "-app";
    assert "my-app"[1..] == "y-app";
  }
}
