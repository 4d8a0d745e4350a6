/** The names and text that download_videos derives for each result URL: the
    media file name, the name of its `.txt` description file, and that file's
    content (`write_video_text_des`). */
module Naming {
  import opened Common

  /** `s.rfind(c, 0, n)`: the index of the last `c` among the first `n`
      characters of `s`, if there is one. */
  function LastIndexBefore(s: string, c: char, n: nat): (r: Option<nat>)
    requires n <= |s|
    ensures r.Some? ==> r.value < n
  {
    if n == 0 then None
    else if s[n - 1] == c then Some(n - 1)
    else LastIndexBefore(s, c, n - 1)
  }

  lemma {:induction false} LastIndexBeforeFinds(s: string, c: char, n: nat)
    requires n <= |s|
    ensures var r := LastIndexBefore(s, c, n);
            && (r.None? ==> forall j :: 0 <= j < n ==> s[j] != c)
            && (r.Some? ==> s[r.value] == c && forall j :: r.value < j < n ==> s[j] != c)
  {
    if n > 0 && s[n - 1] != c {
      LastIndexBeforeFinds(s, c, n - 1);
    }
  }

  /** `s.rfind(c)`, as an option. */
  function LastIndex(s: string, c: char): Option<nat>
  {
    LastIndexBefore(s, c, |s|)
  }

  /** `url.split('/')[-1]`: the text after the last '/', or the whole URL when
      it has none. */
  function MediaName(url: string): string
  {
    match LastIndex(url, '/')
    case None => url
    case Some(i) => url[i + 1..]
  }

  /** The media name is the final segment of the URL: it holds no '/', and what
      precedes it is empty or ends in '/'. */
  lemma MediaNameIsLastSegment(url: string)
    ensures var name := MediaName(url);
            && '/' !in name
            && |name| <= |url| && url == url[..|url| - |name|] + name
            && (|name| < |url| ==> url[|url| - |name| - 1] == '/')
  {
    LastIndexBeforeFinds(url, '/', |url|);
    var name := MediaName(url);
    assert url == url[..|url| - |name|] + url[|url| - |name|..];
    assert forall j :: 0 <= j < |name| ==> name[j] == url[|url| - |name| + j];
  }

  /** Some character among the first `n` of `s` is not a dot. */
  predicate NonDotBefore(s: string, n: nat)
    requires n <= |s|
  {
    n > 0 && (s[n - 1] != '.' || NonDotBefore(s, n - 1))
  }

  lemma {:induction false} NonDotBeforeExists(s: string, n: nat)
    requires n <= |s|
    ensures NonDotBefore(s, n) <==> exists i :: 0 <= i < n && s[i] != '.'
  {
    if n > 0 {
      NonDotBeforeExists(s, n - 1);
    }
  }

  /** Where `os.path.splitext` cuts a file name that holds no separator: at the
      last '.', unless only dots precede it (".bashrc" has no extension). */
  function ExtStart(name: string): nat
  {
    match LastIndex(name, '.')
    case Some(d) => if NonDotBefore(name, d) then d else |name|
    case None => |name|
  }

  /** `os.path.splitext(name)[0]` */
  function Stem(name: string): (r: string)
    ensures |r| <= |name| && r == name[..|r|]
  {
    name[..ExtStart(name)]
  }

  /** `os.path.splitext(name)[1]` */
  function Ext(name: string): (r: string)
    ensures |r| <= |name| && r == name[|name| - |r|..]
  {
    name[ExtStart(name)..]
  }

  /** The two halves of splitext: the name is the stem followed by the
      extension; a non-empty extension is a final dot-suffix with no other dot,
      after a stem holding something other than dots; an empty one means the
      name has no dot, or only dots before its last one. */
  lemma SplitExtParts(name: string)
    ensures name == Stem(name) + Ext(name)
    ensures Ext(name) != [] ==> && Ext(name)[0] == '.' && '.' !in Ext(name)[1..]
                                && exists i :: 0 <= i < |Stem(name)| && name[i] != '.'
    ensures LastIndex(name, '.').None? <==> '.' !in name
    ensures Ext(name) == [] ==> || LastIndex(name, '.').None?
                                || forall i :: 0 <= i < LastIndex(name, '.').value ==> name[i] == '.'
  {
    LastIndexBeforeFinds(name, '.', |name|);
    var k := ExtStart(name);
    assert name == name[..k] + name[k..];
    match LastIndex(name, '.')
    case None =>
    case Some(d) =>
      NonDotBeforeExists(name, d);
      if k < |name| {
        var e := name[k..];
        assert forall j :: 0 <= j < |e| - 1 ==> e[1..][j] == name[k + 1 + j];
      }
  }

  /** `f'{splitext(filename)[0]}.txt'` */
  function SidecarName(name: string): (r: string)
    ensures |r| >= 4 && r[|r| - 4..] == ".txt"
  {
    Stem(name) + ".txt"
  }

  /** The description file replaces the media name's extension by `.txt`, so it
      lands on the media file itself exactly when that extension is `.txt`. */
  lemma SidecarCollides(name: string)
    ensures SidecarName(name) == name <==> Ext(name) == ".txt"
  {
    SplitExtParts(name);
    if SidecarName(name) == name {
      assert Stem(name) + ".txt" == Stem(name) + Ext(name);
      assert Ext(name) == (Stem(name) + Ext(name))[|Stem(name)|..];
    }
  }

  function Hashtag(tag: string): string
  {
    "#" + tag
  }

  /** `" ".join([f"#{tag}" for tag in tags])` */
  function FormatTags(tags: seq<string>): (s: string)
    ensures s == [] <==> tags == []
  {
    if tags == [] then ""
    else if |tags| == 1 then Hashtag(tags[0])
    else Hashtag(tags[0]) + " " + FormatTags(tags[1..])
  }

  /** The content of a description file: the title, a newline, the hashtags. */
  function SidecarText(title: string, tags: seq<string>): string
  {
    title + "\n" + FormatTags(tags)
  }

  // ---- Reading a description file back: the partner of SidecarText ----

  function FirstIndex(s: string, c: char): (r: Option<nat>)
    ensures r.None? <==> c !in s
    ensures r.Some? ==> r.value < |s| && s[r.value] == c && c !in s[..r.value]
  {
    if s == [] then None
    else if s[0] == c then Some(0)
    else match FirstIndex(s[1..], c)
      case None => None
      case Some(i) =>
        assert s[..i + 1] == [s[0]] + s[1..][..i];
        Some(i + 1)
  }

  lemma FirstIndexAfter(a: string, c: char, b: string)
    requires c !in a
    ensures FirstIndex(a + [c] + b, c) == Some(|a|)
  {
    var s := a + [c] + b;
    assert s[|a|] == c;
  }

  /** `s.split(c)` */
  function Split(s: string, c: char): (parts: seq<string>)
    ensures |parts| >= 1
    decreases |s|
  {
    match FirstIndex(s, c)
    case None => [s]
    case Some(i) => [s[..i]] + Split(s[i + 1..], c)
  }

  function Unhash(word: string): string
  {
    if |word| > 0 && word[0] == '#' then word[1..] else word
  }

  function Hashtags(tags: seq<string>): seq<string>
  {
    seq(|tags|, i requires 0 <= i < |tags| => Hashtag(tags[i]))
  }

  function ParseTags(line: string): seq<string>
  {
    if line == [] then []
    else
      var words := Split(line, ' ');
      seq(|words|, i requires 0 <= i < |words| => Unhash(words[i]))
  }

  /** Title and tags read back from a description file. */
  function ParseSidecar(text: string): (string, seq<string>)
  {
    match FirstIndex(text, '\n')
    case None => (text, [])
    case Some(i) => (text[..i], ParseTags(text[i + 1..]))
  }

  ghost predicate NoSpaces(tags: seq<string>)
  {
    forall i :: 0 <= i < |tags| ==> ' ' !in tags[i]
  }

  lemma HashtagNoSpace(tag: string)
    requires ' ' !in tag
    ensures ' ' !in Hashtag(tag)
  {
    var h := Hashtag(tag);
    assert forall k :: 1 <= k < |h| ==> h[k] == tag[k - 1];
  }

  /** Splitting at the first separator peels off the text before it. */
  lemma SplitAfter(a: string, c: char, b: string)
    requires c !in a
    ensures Split(a + [c] + b, c) == [a] + Split(b, c)
  {
    var s := a + [c] + b;
    FirstIndexAfter(a, c, b);
    assert s[..|a|] == a;
    assert s[|a| + 1..] == b;
  }

  /** One more tag in front: its hashtag, a space, then the rest of the line. */
  lemma SplitFormatTagsStep(tags: seq<string>)
    requires |tags| > 1 && ' ' !in Hashtag(tags[0])
    requires Split(FormatTags(tags[1..]), ' ') == Hashtags(tags[1..])
    ensures Split(FormatTags(tags), ' ') == Hashtags(tags)
  {
    var h := Hashtag(tags[0]);
    var rest := FormatTags(tags[1..]);
    assert FormatTags(tags) == h + [' '] + rest;
    SplitAfter(h, ' ', rest);
    assert Hashtags(tags) == [h] + Hashtags(tags[1..]);
  }

  lemma {:induction false} SplitFormatTags(tags: seq<string>)
    requires tags != [] && NoSpaces(tags)
    ensures Split(FormatTags(tags), ' ') == Hashtags(tags)
  {
    HashtagNoSpace(tags[0]);
    if |tags| == 1 {
      assert Hashtags(tags) == [Hashtag(tags[0])];
    } else {
      assert NoSpaces(tags[1..]) by {
        forall i | 0 <= i < |tags[1..]| ensures ' ' !in tags[1..][i] {
          assert tags[1..][i] == tags[i + 1];
        }
      }
      SplitFormatTags(tags[1..]);
      SplitFormatTagsStep(tags);
    }
  }

  /** The description file determines the title and the tags it was written
      from, for a title without a newline and tags without a space. */
  lemma SidecarRoundTrip(title: string, tags: seq<string>)
    requires '\n' !in title
    requires NoSpaces(tags)
    ensures ParseSidecar(SidecarText(title, tags)) == (title, tags)
  {
    var f := FormatTags(tags);
    var text := title + "\n" + f;
    assert text == title + ['\n'] + f;
    FirstIndexAfter(title, '\n', f);
    assert text[..|title|] == title;
    assert text[|title| + 1..] == f;
    assert ParseSidecar(text) == (title, ParseTags(f));
    if tags != [] {
      SplitFormatTags(tags);
      var parsed := ParseTags(f);
      assert |parsed| == |tags|;
      forall i | 0 <= i < |tags| ensures parsed[i] == tags[i] {
        assert Hashtags(tags)[i] == "#" + tags[i];
      }
      assert parsed == tags;
    }
  }

  /** The names and text derived for a typical result URL, and splitext's
      treatment of a leading dot and of a double extension. */
  lemma NamingExamples()
    ensures MediaName("http://host/a.mp4") == "a.mp4"
    ensures SidecarName("a.mp4") == "a.txt"
    ensures SidecarText("T", ["x", "y"]) == "T\n#x #y"
    ensures Stem(".mp4") == ".mp4" && Ext(".mp4") == ""
    ensures Stem("a.tar.gz") == "a.tar" && Ext("a.tar.gz") == ".gz"
  {
    LastIndexBeforeFinds("http://host/a.mp4", '/', 17);
    assert "http://host/a.mp4"[11] == '/';
    LastIndexBeforeFinds("a.mp4", '.', 5);
    assert "a.mp4"[1] == '.';
    LastIndexBeforeFinds(".mp4", '.', 4);
    assert ".mp4"[0] == '.';
    LastIndexBeforeFinds("a.tar.gz", '.', 8);
    assert "a.tar.gz"[5] == '.';
    NonDotBeforeExists("a.tar.gz", 5);
    assert "a.tar.gz"[0] != '.';
  }
}
