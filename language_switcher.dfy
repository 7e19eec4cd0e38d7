/** The language switcher (src/components/atoms/LanguageSwitcher.tsx): the
    locale rewrite of the current path and the open/closed state of its
    menu. Navigation through window.location is returned as the target path. */
module LanguageSwitcher {
  import opened Wrappers
  import opened Text
  import opened Seqs

  /** The supported locales (src/i18n/config.ts). */
  datatype Locale = En | Es | Fr | Pt | Ca

  function Code(l: Locale): (c: string)
    ensures |c| == 2 && '/' !in c
  {
    match l
    case En => "en"
    case Es => "es"
    case Fr => "fr"
    case Pt => "pt"
    case Ca => "ca"
  }

  /** Distinct locales have distinct codes. */
  lemma CodeInjective(a: Locale, b: Locale)
    requires Code(a) == Code(b)
    ensures a == b
  {
  }

  /** segments[1] = x on a JavaScript array: replace the second element, or
      append it when the array has only one. */
  function SetSecond(segs: seq<string>, x: string): (r: seq<string>)
    requires |segs| >= 1
    ensures |r| >= 2 && r[0] == segs[0] && r[1] == x
    ensures |segs| >= 2 ==> |r| == |segs| && forall k :: 2 <= k < |r| ==> r[k] == segs[k]
    ensures |segs| == 1 ==> |r| == 2
  {
    if |segs| == 1 then segs + [x] else segs[1 := x]
  }

  /** The path handleLocaleChange navigates to: the segments of pathname
      between '/' characters with the second replaced by the locale code,
      joined again, or "/" + code when that join is empty. */
  function RewritePath(pathname: string, l: Locale): string {
    var joined := Join(SetSecond(Split(pathname, '/'), Code(l)), '/');
    if joined == [] then "/" + Code(l) else joined
  }

  /** A join of two or more pieces contains the separator, so is never empty. */
  lemma JoinHasSeparator(segs: seq<string>, sep: char)
    requires |segs| >= 2
    ensures sep in Join(segs, sep)
  {
    var j := Join(segs, sep);
    assert j == segs[0] + [sep] + Join(segs[1..], sep);
    assert j[|segs[0]|] == sep;
  }

  /** The rewritten path is never empty: the fallback of the || expression
      is never taken, whatever the path. */
  lemma RewriteNeverEmpty(pathname: string, l: Locale)
    ensures RewritePath(pathname, l) != []
    ensures RewritePath(pathname, l) == Join(SetSecond(Split(pathname, '/'), Code(l)), '/')
  {
    JoinHasSeparator(SetSecond(Split(pathname, '/'), Code(l)), '/');
  }

  /** Splitting the rewritten path gives the original segments with the
      second one replaced by the locale code (appended when there was only
      one): every other segment is kept, in order. */
  lemma {:induction false} RewriteSegments(pathname: string, l: Locale)
    ensures Split(RewritePath(pathname, l), '/') == SetSecond(Split(pathname, '/'), Code(l))
  {
    var segs := SetSecond(Split(pathname, '/'), Code(l));
    RewriteNeverEmpty(pathname, l);
    forall k | 0 <= k < |segs| ensures '/' !in segs[k] {
      if k != 1 {
        var orig := Split(pathname, '/');
        assert segs[k] == orig[k];
      }
    }
    SplitJoin(segs, '/');
  }

  /** Switching to a and then to b lands where switching straight to b does. */
  lemma {:induction false} RewriteTwice(pathname: string, a: Locale, b: Locale)
    ensures RewritePath(RewritePath(pathname, a), b) == RewritePath(pathname, b)
  {
    RewriteSegments(pathname, a);
    var s := Split(pathname, '/');
    assert SetSecond(SetSecond(s, Code(a)), Code(b)) == SetSecond(s, Code(b));
  }

  /** Rewriting with the locale already in second position leaves a path
      of two or more segments as it is. */
  lemma {:induction false} RewriteKeepsCurrent(pathname: string, l: Locale)
    requires |Split(pathname, '/')| >= 2 && Split(pathname, '/')[1] == Code(l)
    ensures RewritePath(pathname, l) == pathname
  {
    var s := Split(pathname, '/');
    assert SetSecond(s, Code(l)) == s;
    JoinSplit(pathname, '/');
  }

  /** A page under a locale prefix, "/x/rest", keeps the rest of its path
      and changes its prefix: "/en/about" becomes "/es/about". */
  lemma {:induction false} RewritePrefixed(x: string, rest: string, l: Locale)
    requires '/' !in x
    ensures RewritePath("/" + x + "/" + rest, l) == "/" + Code(l) + "/" + rest
  {
    var p := "/" + x + "/" + rest;
    var tail := Split(rest, '/');
    assert Split(p, '/') == [[], x] + tail by {
      PrefixedSplit(x, rest);
    }
    var segs := [[], Code(l)] + tail;
    assert SetSecond([[], x] + tail, Code(l)) == segs;
    assert Join(segs, '/') == "/" + Code(l) + "/" + rest by {
      PrefixedJoin(Code(l), tail);
      JoinSplit(rest, '/');
    }
  }

  /** "/x/rest" splits into "", x and the pieces of rest. */
  lemma PrefixedSplit(x: string, rest: string)
    requires '/' !in x
    ensures Split("/" + x + "/" + rest, '/') == [[], x] + Split(rest, '/')
  {
    var q := x + ['/'] + rest;
    AppendAssoc(['/'], x + ['/'], rest);
    AppendAssoc(['/'], x, ['/']);
    assert [] + ['/'] + q == "/" + x + "/" + rest;
    SplitAround([], q, '/');
    SplitAround(x, rest, '/');
    SplitNoSep(x, '/');
    AppendAssoc([[]], [x], Split(rest, '/'));
    assert [[]] + [x] == [[], x];
  }

  /** Joining "", c and more pieces gives "/" + c + "/" and their join. */
  lemma PrefixedJoin(c: string, tail: seq<string>)
    requires |tail| >= 1
    ensures Join([[], c] + tail, '/') == "/" + c + "/" + Join(tail, '/')
  {
    JoinCons(c, tail, '/');
    AppendAssoc([[]], [c], tail);
    assert [[]] + [c] == [[], c];
    JoinCons([], [c] + tail, '/');
    var j := Join(tail, '/');
    assert [] + "/" == "/";
    AppendAssoc("/", c + "/", j);
    AppendAssoc("/", c, "/");
  }

  /** A locale root "/x" becomes "/" + code: "/en" and "/" both become "/es". */
  lemma {:induction false} RewriteRoot(x: string, l: Locale)
    requires '/' !in x
    ensures RewritePath("/" + x, l) == "/" + Code(l)
  {
    assert "/" + x == [] + ['/'] + x;
    SplitAround([], x, '/');
    SplitNoSep(x, '/');
    assert Split("/" + x, '/') == [[], x];
    assert SetSecond([[], x], Code(l)) == [[], Code(l)];
    JoinCons([], [Code(l)], '/');
    assert Join([[], Code(l)], '/') == [] + ['/'] + Code(l);
  }

  /** A path without any '/' gains the locale as a new last segment:
      "about" becomes "about/es". */
  lemma {:induction false} RewriteNoSlash(p: string, l: Locale)
    requires '/' !in p
    ensures RewritePath(p, l) == p + "/" + Code(l)
  {
    SplitNoSep(p, '/');
    JoinCons(p, [Code(l)], '/');
  }

  /** The rewrite on the path shapes the site produces. */
  lemma RewriteExamplePage()
    ensures RewritePath("/en/about", Es) == "/es/about"
  {
    assert "/en/about" == "/" + "en" + "/" + "about";
    RewritePrefixed("en", "about", Es);
    assert Code(Es) == "es";
    assert "/" + Code(Es) + "/" + "about" == "/es/about";
  }

  lemma RewriteExampleRoots()
    ensures RewritePath("/en", Es) == "/es"
    ensures RewritePath("/", Es) == "/es"
  {
    RewriteRoot("en", Es);
    assert "/" == "/" + "";
    RewriteRoot("", Es);
  }

  lemma RewriteExampleNoSlash()
    ensures RewritePath("about", Es) == "about/es"
  {
    RewriteNoSlash("about", Es);
  }

  /** The menu's isOpen cell. */
  class Switcher {
    var isOpen: bool

    constructor ()
      ensures !isOpen
    {
      isOpen := false;
    }

    /** The globe button: flip the menu. */
    method Toggle()
      modifies this
      ensures isOpen == !old(isOpen)
    {
      isOpen := !isOpen;
    }

    /** A document click; its listener exists only while the menu is open
        and closes it when the target lies outside the switcher. */
    method DocumentClick(insideSwitcher: bool)
      modifies this
      ensures isOpen == (old(isOpen) && insideSwitcher)
    {
      if isOpen && !insideSwitcher {
        isOpen := false;
      }
    }

    /** A window scroll; its listener exists only while the menu is open
        and closes it. */
    method Scroll()
      modifies this
      ensures !isOpen
    {
      if isOpen {
        isOpen := false;
      }
    }

    /** handleLocaleChange: choosing the current locale closes the menu and
        goes nowhere; any other locale navigates to the rewritten path and
        leaves the menu as it is. */
    method ChooseLocale(current: Locale, chosen: Locale, pathname: string)
      returns (navigateTo: Option<string>)
      modifies this
      ensures chosen == current ==> navigateTo == None && !isOpen
      ensures chosen != current ==> navigateTo == Some(RewritePath(pathname, chosen))
                                    && isOpen == old(isOpen)
      ensures navigateTo.Some? ==> navigateTo.value != []
    {
      if chosen == current {
        isOpen := false;
        return None;
      }
      var segments := Split(pathname, '/');
      segments := SetSecond(segments, Code(chosen));
      var newPath := Join(segments, '/');
      if newPath == [] {
        newPath := "/" + Code(chosen);
      }
      RewriteNeverEmpty(pathname, chosen);
      return Some(newPath);
    }
  }
}
