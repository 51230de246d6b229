/**
 * The HTML body of a directory listing: one anchor per readable entry, in
 * the order the directory enumeration yields them, inside a fixed page.
 */
module Listing {
  import opened Wrappers
  import opened Bytes

  /** An entry of the enumeration: the entry's path, or None when reading that entry failed. */
  type Entry = Option<seq<byte>>

  const INDENT := Ascii("        ")
  /** The template text before the anchors, from the raw literal's opening line break up to `{paths}`. */
  const PAGE_OPEN := [NL] + INDENT + Ascii("<html>") + [NL] + INDENT + Ascii("<body>") + [NL] + INDENT
  /** The template text after the anchors, up to the closing quote. */
  const PAGE_CLOSE := [NL] + INDENT + Ascii("</body>") + [NL] + INDENT + Ascii("</html>") + [NL] + INDENT

  const HREF_OPEN := Ascii("<a href='")
  const HREF_CLOSE := Ascii("'>")
  const ANCHOR_CLOSE := Ascii("</a><br/>")

  /** `<a href='s'>s</a><br/>`: the link target and the link text are both the entry's path. */
  function Anchor(path: seq<byte>): seq<byte> {
    HREF_OPEN + path + HREF_CLOSE + path + ANCHOR_CLOSE
  }

  /** The page around the accumulated anchors. */
  function Page(paths: seq<byte>): seq<byte> {
    PAGE_OPEN + paths + PAGE_CLOSE
  }

  /** What the loop has appended after visiting `entries`: failed entries add nothing. */
  function Links(entries: seq<Entry>): seq<byte> {
    if entries == [] then []
    else
      var last := entries[|entries| - 1];
      Links(entries[..|entries| - 1]) + (if last.Some? then Anchor(last.value) else [])
  }

  /** The paths of the entries that were read successfully, in enumeration order. */
  function Readable(entries: seq<Entry>): seq<seq<byte>> {
    if entries == [] then []
    else if entries[0].Some? then [entries[0].value] + Readable(entries[1..])
    else Readable(entries[1..])
  }

  /** The anchors of `paths`, one after another. */
  function Anchors(paths: seq<seq<byte>>): seq<byte> {
    if paths == [] then [] else Anchor(paths[0]) + Anchors(paths[1..])
  }

  lemma {:induction false} AnchorsAppend(a: seq<seq<byte>>, b: seq<seq<byte>>)
    ensures Anchors(a + b) == Anchors(a) + Anchors(b)
  {
    if a != [] {
      assert (a + b)[1..] == a[1..] + b;
      AnchorsAppend(a[1..], b);
    } else {
      assert a + b == b;
    }
  }

  lemma {:induction false} ReadableAppend(entries: seq<Entry>, e: Entry)
    ensures Readable(entries + [e]) == Readable(entries) + (if e.Some? then [e.value] else [])
  {
    if entries != [] {
      assert (entries + [e])[1..] == entries[1..] + [e];
      ReadableAppend(entries[1..], e);
    }
  }

  /**
   * The loop's accumulated text is exactly the anchors of the readable
   * entries in enumeration order, failed entries skipped.
   */
  lemma {:induction false} LinksAreAnchorsOfReadable(entries: seq<Entry>)
    ensures Links(entries) == Anchors(Readable(entries))
  {
    if entries != [] {
      var init := entries[..|entries| - 1];
      var last := entries[|entries| - 1];
      assert entries == init + [last];
      LinksAreAnchorsOfReadable(init);
      ReadableAppend(init, last);
      var tail := if last.Some? then [last.value] else [];
      AnchorsAppend(Readable(init), tail);
      if last.Some? {
        assert Anchors(tail) == Anchor(last.value) + Anchors([]);
      }
    }
  }

  /** A path is listed exactly when some entry with that path was read successfully. */
  lemma {:induction false} ReadableMembers(entries: seq<Entry>, path: seq<byte>)
    ensures path in Readable(entries) <==> Some(path) in entries
  {
    if entries != [] {
      ReadableMembers(entries[1..], path);
      assert entries == [entries[0]] + entries[1..];
    }
  }

  /**
   * The anchor of the k-th listed path sits in the concatenation right
   * after the anchors of the paths before it.
   */
  lemma {:induction false} AnchorAt(paths: seq<seq<byte>>, k: nat)
    requires k < |paths|
    ensures var at := |Anchors(paths[..k])|;
      at + |Anchor(paths[k])| <= |Anchors(paths)| &&
      Anchors(paths)[at..at + |Anchor(paths[k])|] == Anchor(paths[k])
  {
    assert paths == paths[..k] + paths[k..];
    AnchorsAppend(paths[..k], paths[k..]);
    assert Anchors(paths[k..]) == Anchor(paths[k]) + Anchors(paths[k + 1..]);
  }
}
