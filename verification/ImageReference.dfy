/** Splitting a container image reference into repository, tag and digest, and putting it back. */
module ImageReference {
  import opened Options

  datatype Image = Image(repository: string, tag: Option<string>, digest: Option<string>)

  /** The first index of a character, or the length. */
  function Find(s: string, c: char): (i: nat)
    ensures i <= |s|
    ensures i < |s| ==> s[i] == c
    ensures forall j :: 0 <= j < i ==> s[j] != c
  {
    if s == [] || s[0] == c then 0 else 1 + Find(s[1..], c)
  }

  /** The last index of a character, or -1. */
  function RFind(s: string, c: char): (i: int)
    ensures -1 <= i < |s|
    ensures 0 <= i ==> s[i] == c
    ensures forall j :: i < j < |s| ==> s[j] != c
  {
    if s == [] then -1
    else if s[|s| - 1] == c then |s| - 1
    else RFind(s[..|s| - 1], c)
  }

  function Split(image: string): Image
  {
    SplitName(image[..Find(image, '@')], DigestOf(image))
  }

  /** The text after the first '@', if there is one. */
  function DigestOf(image: string): Option<string>
  {
    var at := Find(image, '@');
    if at < |image| then Some(image[at + 1..]) else None
  }

  /** The text before the digest: a colon after the last slash starts a tag. */
  function SplitName(name: string, digest: Option<string>): Image
  {
    var slash, colon := RFind(name, '/'), RFind(name, ':');
    if colon > slash then Image(name[..colon], Some(name[colon + 1..]), digest)
    else Image(name, None, digest)
  }

  function NameOf(image: Image): string
  {
    image.repository + match image.tag case None => "" case Some(t) => ":" + t
  }

  function DigestText(digest: Option<string>): string
  {
    match digest case None => "" case Some(d) => "@" + d
  }

  function Join(image: Image): string
  {
    NameOf(image) + DigestText(image.digest)
  }

  lemma JoinSplitName(name: string, digest: Option<string>)
    ensures NameOf(SplitName(name, digest)) == name && SplitName(name, digest).digest == digest
  {
    hide RFind;
    var colon := RFind(name, ':');
    if colon > RFind(name, '/') {
      assert ":" + name[colon + 1..] == name[colon..];
    }
  }

  lemma CutAtSign(s: string)
    ensures s == s[..Find(s, '@')] + DigestText(DigestOf(s))
  {
    hide Find;
    var at := Find(s, '@');
    if at < |s| {
      assert DigestText(DigestOf(s)) == "@" + s[at + 1..] == s[at..];
    } else {
      assert DigestText(DigestOf(s)) == "" && s[..at] == s;
    }
  }

  /** Joining the parts of any reference gives the reference back. */
  lemma JoinSplit(s: string)
    ensures Join(Split(s)) == s
  {
    hide SplitName, NameOf, Find, DigestOf, DigestText;
    JoinSplitName(s[..Find(s, '@')], DigestOf(s));
    CutAtSign(s);
  }

  /** No '@' before the digest, and every ':' that could start a tag is the tag's own. */
  predicate WellFormed(image: Image)
  {
    && '@' !in NameOf(image)
    && match image.tag
       case Some(t) => ':' !in t && '/' !in t
       case None => RFind(image.repository, ':') <= RFind(image.repository, '/')
  }

  lemma FindSkips(s: string, t: string, c: char)
    requires c !in s && (t == "" || t[0] == c)
    ensures Find(s + t, c) == |s|
  {
    assert forall j :: 0 <= j < |s| ==> (s + t)[j] == s[j];
    if t != "" {
      assert (s + t)[|s|] == c;
    }
  }

  lemma CutOfJoined(name: string, digest: Option<string>)
    requires '@' !in name
    ensures var s := name + DigestText(digest); s[..Find(s, '@')] == name && DigestOf(s) == digest
  {
    var s := name + DigestText(digest);
    FindSkips(name, DigestText(digest), '@');
    hide Find;
    if digest.Some? {
      assert s[|name| + 1..] == digest.value;
    }
  }

  lemma SplitOfJoin(image: Image)
    requires '@' !in NameOf(image)
    ensures Split(Join(image)) == SplitName(NameOf(image), image.digest)
  {
    hide SplitName, NameOf, Find, DigestOf, DigestText;
    CutOfJoined(NameOf(image), image.digest);
  }

  lemma TagIsLast(repository: string, tag: string)
    ensures var name := repository + ":" + tag;
            (RFind(name, ':') == |repository| > RFind(name, '/')) <==> ':' !in tag && '/' !in tag
  {
    var name := repository + ":" + tag;
    var slash, colon := RFind(name, '/'), RFind(name, ':');
    assert name[|repository|] == ':';
    assert forall j :: 0 <= j < |tag| ==> name[|repository| + 1 + j] == tag[j];
    if ':' in tag {
      var j :| 0 <= j < |tag| && tag[j] == ':';
      assert name[|repository| + 1 + j] == ':';
    } else if '/' in tag {
      var j :| 0 <= j < |tag| && tag[j] == '/';
      assert name[|repository| + 1 + j] == '/';
    } else {
      assert forall j :: |repository| < j < |name| ==> name[j] == tag[j - |repository| - 1];
    }
  }

  lemma SignInNameIsLost(image: Image)
    requires '@' in NameOf(image)
    ensures Split(Join(image)) != image
  {
    hide SplitName, NameOf, Find, DigestOf, DigestText;
    var name, joined := NameOf(image), Join(image);
    var j :| 0 <= j < |name| && name[j] == '@';
    assert joined[j] == '@';
    var at := Find(joined, '@');
    JoinSplitName(joined[..at], DigestOf(joined));
  }

  lemma SplitNameExactly(image: Image)
    ensures SplitName(NameOf(image), image.digest) == image
       <==> match image.tag
            case Some(t) => ':' !in t && '/' !in t
            case None => RFind(image.repository, ':') <= RFind(image.repository, '/')
  {
    var name := NameOf(image);
    match image.tag {
      case Some(t) =>
        TagIsLast(image.repository, t);
        hide RFind;
        assert name == image.repository + ":" + t;
        assert name[..|image.repository|] == image.repository && name[|image.repository| + 1..] == t;
      case None =>
        assert name == image.repository;
    }
  }

  /** Splitting a printed reference returns its parts exactly for well-formed parts. */
  lemma SplitJoinExactly(image: Image)
    ensures Split(Join(image)) == image <==> WellFormed(image)
  {
    if '@' in NameOf(image) {
      SignInNameIsLost(image);
    } else {
      SplitOfJoin(image);
      SplitNameExactly(image);
    }
  }

  /** A registry with a port, printed without repository or tag, reads back as a repository with a tag. */
  lemma BarePortIsReadAsTag(host: string, port: string)
    requires '@' !in host && '@' !in port && ':' !in port && '/' !in port
    ensures Split(Join(Image(host + ":" + port, None, None))) == Image(host, Some(port), None)
  {
    var whole, parts := Image(host + ":" + port, None, None), Image(host, Some(port), None);
    assert NameOf(whole) == NameOf(parts) == host + ":" + port;
    assert Join(whole) == Join(parts);
    SplitJoinExactly(parts);
  }
}
