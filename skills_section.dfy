/** The category buttons and skill filter of the skills section
    (src/components/organisms/SkillsSection.tsx), over the skill record of
    src/types/index.ts. */
module SkillsSection {
  import opened Seqs

  /** SkillCategory, with its string values. */
  datatype SkillCategory = Programming | Frontend | Backend | Security | Cloud | Tools

  function CategoryCode(c: SkillCategory): (s: string)
    ensures s != "featured" && s != "all"
  {
    match c
    case Programming => "programming"
    case Frontend => "frontend"
    case Backend => "backend"
    case Security => "security"
    case Cloud => "cloud"
    case Tools => "tools"
  }

  /** Different categories have different string values. */
  lemma CategoryCodeInjective(a: SkillCategory, b: SkillCategory)
    requires CategoryCode(a) == CategoryCode(b)
    ensures a == b
  {
  }

  /** A skill; an absent featured flag is false. */
  datatype Skill = Skill(id: string, name: string, level: nat, category: SkillCategory, featured: bool)

  const Featured := "featured"
  const All := "all"

  /** The distinct elements of s, each at the place it first appears. */
  function Distinct(s: seq<string>): (r: seq<string>)
    ensures forall x :: x in r <==> x in s
    ensures forall i, j :: 0 <= i < j < |r| ==> r[i] != r[j]
    decreases |s|
  {
    if s == [] then []
    else
      var init := Distinct(s[..|s| - 1]);
      var last := s[|s| - 1];
      assert forall x :: x in s <==> x in s[..|s| - 1] || x == last;
      if last in init then init else init + [last]
  }

  /** Distinct keeps the order of first appearance, as a Set does: its
      result is a subsequence of its input, and of any two of its elements
      the earlier one first appears earlier in the input. */
  lemma {:induction false} DistinctFirstAppearance(s: seq<string>)
    ensures IsSubsequence(Distinct(s), s)
    ensures FirstAppearanceOrder(Distinct(s), s)
    decreases |s|
  {
    if s != [] {
      var front := s[..|s| - 1];
      var last := s[|s| - 1];
      DistinctFirstAppearance(front);
      assert s == front + [last];
      SubsequenceAppend(Distinct(front), front, last);
      DistinctOrderStep(front, last);
    }
  }

  /** One step of Distinct keeps the order of first appearance. */
  lemma DistinctOrderStep(front: seq<string>, last: string)
    requires FirstAppearanceOrder(Distinct(front), front)
    ensures FirstAppearanceOrder(Distinct(front + [last]), front + [last])
  {
    var s := front + [last];
    assert s[..|s| - 1] == front;
    var init := Distinct(front);
    var r := Distinct(s);
    forall x | x in front ensures FirstIndex(s, x) == FirstIndex(front, x) {
      FirstIndexOfPrefix(front, last, x);
    }
    if last !in init {
      assert r == init + [last];
      FirstIndexUnique(s, last, |s| - 1);
      forall i, j | 0 <= i < j < |r|
        ensures r[i] in s && r[j] in s && FirstIndex(s, r[i]) < FirstIndex(s, r[j])
      {
        assert r[i] == init[i] && r[i] in front;
        if j < |init| {
          assert r[j] == init[j];
          assert FirstIndex(front, init[i]) < FirstIndex(front, init[j]);
        } else {
          assert r[j] == last;
        }
      }
    } else {
      assert r == init;
      forall i, j | 0 <= i < j < |r|
        ensures r[i] in s && r[j] in s && FirstIndex(s, r[i]) < FirstIndex(s, r[j])
      {
        assert FirstIndex(front, init[i]) < FirstIndex(front, init[j]);
      }
    }
  }

  /** Of any two elements of r, the earlier one first appears earlier in s. */
  predicate FirstAppearanceOrder(r: seq<string>, s: seq<string>) {
    forall i, j :: 0 <= i < j < |r| ==>
      r[i] in s && r[j] in s && FirstIndex(s, r[i]) < FirstIndex(s, r[j])
  }

  /** An element of a list first appears in it where it first appears in
      the list with one more element at the end. */
  lemma FirstIndexOfPrefix(front: seq<string>, last: string, x: string)
    requires x in front
    ensures FirstIndex(front + [last], x) == FirstIndex(front, x)
  {
    var p := FirstIndex(front, x);
    assert (front + [last])[..p] == front[..p];
    FirstIndexUnique(front + [last], x, p);
  }

  /** Appending an element to the larger list keeps a subsequence one, and
      appending it to both does too. */
  lemma {:induction false} SubsequenceAppend<T>(a: seq<T>, b: seq<T>, x: T)
    requires IsSubsequence(a, b)
    ensures IsSubsequence(a, b + [x])
    ensures IsSubsequence(a + [x], b + [x])
    decreases |b|
  {
    if a == [] {
      SubsequenceSingle(x, b + [x]);
      assert a + [x] == [x];
    } else if b == [] {
    } else {
      assert (b + [x])[1..] == b[1..] + [x];
      if a[0] == b[0] {
        SubsequenceAppend(a[1..], b[1..], x);
        assert (a + [x])[1..] == a[1..] + [x];
      } else {
        SubsequenceAppend(a, b[1..], x);
      }
    }
  }

  /** A one-element list is a subsequence of any list ending in it. */
  lemma {:induction false} SubsequenceSingle<T>(x: T, b: seq<T>)
    requires b != [] && b[|b| - 1] == x
    ensures IsSubsequence([x], b)
    decreases |b|
  {
    if b[0] != x {
      SubsequenceSingle(x, b[1..]);
    } else {
      assert [x][1..] == [];
    }
  }

  function CategoryCodes(skills: seq<Skill>): (r: seq<string>)
    ensures |r| == |skills|
    ensures forall k :: 0 <= k < |skills| ==> r[k] == CategoryCode(skills[k].category)
  {
    seq(|skills|, k requires 0 <= k < |skills| => CategoryCode(skills[k].category))
  }

  /** The category buttons: 'featured', 'all', then each skill category in
      order of first appearance. */
  function Categories(skills: seq<Skill>): seq<string> {
    [Featured, All] + Distinct(CategoryCodes(skills))
  }

  /** The category list starts with 'featured' and 'all', names exactly the
      categories the skills use after them, in the order in which they first
      appear among the skills, and has no duplicates. */
  lemma CategoriesShape(skills: seq<Skill>)
    ensures var cs := Categories(skills);
            && |cs| >= 2 && cs[0] == Featured && cs[1] == All
            && (forall k :: 2 <= k < |cs| ==> exists i :: 0 <= i < |skills| && cs[k] == CategoryCode(skills[i].category))
            && (forall i :: 0 <= i < |skills| ==> CategoryCode(skills[i].category) in cs[2..])
            && (forall i, j :: 0 <= i < j < |cs| ==> cs[i] != cs[j])
            && FirstAppearanceOrder(cs[2..], CategoryCodes(skills))
  {
    var cs := Categories(skills);
    var codes := CategoryCodes(skills);
    var d := Distinct(codes);
    assert cs[2..] == d;
    DistinctFirstAppearance(codes);
    forall k | 2 <= k < |cs|
      ensures exists i :: 0 <= i < |skills| && cs[k] == CategoryCode(skills[i].category)
    {
      assert cs[k] == d[k - 2];
      assert cs[k] in codes;
      var i :| 0 <= i < |codes| && codes[i] == cs[k];
    }
    forall i | 0 <= i < |skills| ensures CategoryCode(skills[i].category) in cs[2..] {
      assert codes[i] in codes;
    }
    forall i, j | 0 <= i < j < |cs| ensures cs[i] != cs[j] {
      if j >= 2 {
        assert cs[j] in codes;
        if i >= 2 {
          assert cs[i] == d[i - 2] && cs[j] == d[j - 2];
        }
      }
    }
  }

  /** filteredSkills for the active category. */
  function FilteredSkills(skills: seq<Skill>, active: string): seq<Skill> {
    if active == Featured then Filter(skills, (s: Skill) => s.featured)
    else if active == All then skills
    else Filter(skills, (s: Skill) => CategoryCode(s.category) == active)
  }

  /** 'featured' shows exactly the featured skills, 'all' shows every
      skill, and any other value exactly the skills of that category; each
      result keeps the skills' order. */
  lemma FilteredSkillsMeaning(skills: seq<Skill>, active: string)
    ensures var r := FilteredSkills(skills, active);
            && IsSubsequence(r, skills)
            && (active == All ==> r == skills)
            && (active == Featured ==>
                  (forall k :: 0 <= k < |r| ==> r[k].featured) &&
                  (forall k :: 0 <= k < |skills| && skills[k].featured ==> skills[k] in r))
            && (active != Featured && active != All ==>
                  (forall k :: 0 <= k < |r| ==> CategoryCode(r[k].category) == active) &&
                  (forall k :: 0 <= k < |skills| && CategoryCode(skills[k].category) == active ==>
                     skills[k] in r))
  {
    if active == Featured {
      FilterIsSubsequence(skills, (s: Skill) => s.featured);
    } else if active == All {
      SubsequenceRefl(skills);
    } else {
      FilterIsSubsequence(skills, (s: Skill) => CategoryCode(s.category) == active);
    }
  }

  lemma {:induction false} SubsequenceRefl<T>(s: seq<T>)
    ensures IsSubsequence(s, s)
    decreases |s|
  {
    if s != [] {
      SubsequenceRefl(s[1..]);
    }
  }

  /** The number of skills each concrete category button shows. */
  function ShownBy(skills: seq<Skill>, c: SkillCategory): nat {
    |FilteredSkills(skills, CategoryCode(c))|
  }

  /** The six category filters split the skills: every skill is shown by
      exactly one of them, so their sizes add up to the number of skills. */
  lemma {:induction false} CategoryFiltersPartition(skills: seq<Skill>)
    ensures ShownBy(skills, Programming) + ShownBy(skills, Frontend) + ShownBy(skills, Backend)
            + ShownBy(skills, Security) + ShownBy(skills, Cloud) + ShownBy(skills, Tools) == |skills|
    decreases |skills|
  {
    if skills != [] {
      CategoryFiltersPartition(skills[1..]);
      ShownByStep(skills, Programming);
      ShownByStep(skills, Frontend);
      ShownByStep(skills, Backend);
      ShownByStep(skills, Security);
      ShownByStep(skills, Cloud);
      ShownByStep(skills, Tools);
    }
  }

  /** One step of a category filter: the first skill is shown exactly when
      it has that category. */
  lemma ShownByStep(skills: seq<Skill>, c: SkillCategory)
    requires skills != []
    ensures ShownBy(skills, c) == (if skills[0].category == c then 1 else 0) + ShownBy(skills[1..], c)
  {
    var code := CategoryCode(c);
    var keep := (s: Skill) => CategoryCode(s.category) == code;
    assert FilteredSkills(skills, code) == Filter(skills, keep);
    assert FilteredSkills(skills[1..], code) == Filter(skills[1..], keep);
    if CategoryCode(skills[0].category) == code {
      CategoryCodeInjective(skills[0].category, c);
    }
  }

  /** The activeCategory cell. */
  class CategoryState {
    var activeCategory: string

    constructor ()
      ensures activeCategory == Featured
    {
      activeCategory := Featured;
    }

    /** handleCategoryChange. */
    method ChangeCategory(category: string)
      modifies this
      ensures activeCategory == category
    {
      activeCategory := category;
    }
  }
}
