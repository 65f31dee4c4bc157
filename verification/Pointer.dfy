/** JSON Pointer text (RFC 6901 sections 3 and 4) and the tokens it stands for. */
module Pointer {
  import opened Options
  import opened Segments

  // ----- the string operations the engine uses -----

  /** `s.replace(c, t)` for a one-character pattern. */
  function Replace1(s: string, c: char, t: string): string
  {
    if s == "" then "" else (if s[0] == c then t else [s[0]]) + Replace1(s[1..], c, t)
  }

  /** `s.replace(x + y, c)` for a two-character pattern, scanning left to right. */
  function Replace2(s: string, x: char, y: char, c: char): string
  {
    if s == "" then ""
    else if |s| >= 2 && s[0] == x && s[1] == y then [c] + Replace2(s[2..], x, y, c)
    else [s[0]] + Replace2(s[1..], x, y, c)
  }

  // ----- one reference token -----

  /** The escaped form of a key, as `_path` writes it. */
  function Escape(key: string): string
  {
    Replace1(Replace1(key, '~', "~0"), '/', "~1")
  }

  /** The key an escaped token stands for, as `_parts` reads it. */
  function Unescape(part: string): string
  {
    Replace2(Replace2(part, '~', '1', '/'), '~', '0', '~')
  }

  /** Every tilde is followed by 0 or 1. */
  predicate Escaped(s: string)
  {
    forall i :: 0 <= i < |s| && s[i] == '~' ==> i + 1 < |s| && (s[i + 1] == '0' || s[i + 1] == '1')
  }

  /** The escape of one character. */
  function EscapeChar(c: char): string
  {
    if c == '~' then "~0" else if c == '/' then "~1" else [c]
  }

  lemma {:induction false} EscapeStep(key: string)
    requires key != ""
    ensures Escape(key) == EscapeChar(key[0]) + Escape(key[1..])
  {
    var mid := Replace1(key[1..], '~', "~0");
    if key[0] == '~' {
      assert ("~0" + mid)[1..] == "0" + mid && ("0" + mid)[1..] == mid;
      assert Replace1("~0" + mid, '/', "~1") == "~" + Replace1("0" + mid, '/', "~1");
      assert Replace1("0" + mid, '/', "~1") == "0" + Replace1(mid, '/', "~1");
    } else {
      assert ([key[0]] + mid)[1..] == mid;
    }
  }

  lemma {:induction false} EscapeIsEscaped(key: string)
    ensures NoSlash(Escape(key)) && Escaped(Escape(key))
  {
    if key != "" {
      EscapeIsEscaped(key[1..]);
      EscapeStep(key);
    }
  }

  /** Undoing the slash escapes leaves the tilde escapes alone. */
  lemma {:induction false} UnescapeSlashes(key: string)
    ensures Replace2(Escape(key), '~', '1', '/') == Replace1(key, '~', "~0")
  {
    if key != "" {
      UnescapeSlashes(key[1..]);
      EscapeStep(key);
      var rest := Escape(key[1..]);
      if key[0] == '~' {
        assert ("~0" + rest)[1..] == "0" + rest && ("0" + rest)[1..] == rest;
        assert Replace2("~0" + rest, '~', '1', '/') == "~" + Replace2("0" + rest, '~', '1', '/');
        assert Replace2("0" + rest, '~', '1', '/') == "0" + Replace2(rest, '~', '1', '/');
      } else if key[0] == '/' {
        assert ("~1" + rest)[2..] == rest;
      } else {
        assert ([key[0]] + rest)[1..] == rest;
      }
    }
  }

  lemma {:induction false} UnescapeTildes(key: string)
    ensures Replace2(Replace1(key, '~', "~0"), '~', '0', '~') == key
  {
    if key != "" {
      UnescapeTildes(key[1..]);
      var rest := Replace1(key[1..], '~', "~0");
      if key[0] == '~' {
        assert ("~0" + rest)[2..] == rest;
      } else {
        assert ([key[0]] + rest)[1..] == rest;
      }
      assert [key[0]] + key[1..] == key;
    }
  }

  /** Escaping loses nothing: every key is read back. */
  lemma UnescapeEscape(key: string)
    ensures Unescape(Escape(key)) == key
  {
    UnescapeSlashes(key);
    UnescapeTildes(key);
  }

  /** Every well-escaped token is the escape of the key it stands for. */
  lemma {:induction false} EscapeUnescape(part: string)
    requires NoSlash(part) && Escaped(part)
    ensures exists key :: Escape(key) == part
    ensures Escape(Unescape(part)) == part
  {
    var key := KeyOf(part);
    UnescapeEscape(key);
  }

  /** The key of a well-escaped token, read one escape at a time. */
  lemma {:induction false} KeyOf(part: string) returns (key: string)
    requires NoSlash(part) && Escaped(part)
    ensures Escape(key) == part
  {
    if part == "" {
      key := "";
    } else if part[0] == '~' {
      var rest := KeyOf(part[2..]);
      key := (if part[1] == '0' then "~" else "/") + rest;
      EscapeStep(key);
      assert key[1..] == rest && part == part[..2] + part[2..];
    } else {
      var rest := KeyOf(part[1..]);
      key := [part[0]] + rest;
      EscapeStep(key);
      assert key[1..] == rest && part == [part[0]] + part[1..];
    }
  }

  // ----- whole pointers -----

  /** A child's pointer, as `_path` builds it. */
  function Child(parent: string, key: string): string
  {
    parent + "/" + Escape(key)
  }

  /** The pointer that the walk builds for a sequence of keys. */
  function Encode(keys: seq<string>): string
  {
    if keys == [] then "" else Child(Encode(keys[..|keys| - 1]), keys[|keys| - 1])
  }

  predicate Valid(path: string)
  {
    (path == "" || path[0] == '/') && Escaped(path)
  }

  function UnescapeAll(parts: seq<string>): (keys: seq<string>)
    ensures |keys| == |parts| && forall i :: 0 <= i < |parts| ==> keys[i] == Unescape(parts[i])
  {
    seq(|parts|, i requires 0 <= i < |parts| => Unescape(parts[i]))
  }

  function EscapeAll(keys: seq<string>): (parts: seq<string>)
    ensures |parts| == |keys| && forall i :: 0 <= i < |parts| ==> parts[i] == Escape(keys[i])
  {
    seq(|keys|, i requires 0 <= i < |keys| => Escape(keys[i]))
  }

  /** The keys of a pointer, as `_parts` reads them; None where it raises. */
  function Decode(path: string): Option<seq<string>>
  {
    if !Valid(path) then None
    else if path == "" then Some([])
    else Some(UnescapeAll(Split(path[1..])))
  }

  lemma {:induction false} EncodeIsJoin(keys: seq<string>)
    requires keys != []
    ensures Encode(keys) == "/" + Join(EscapeAll(keys))
  {
    var n := |keys| - 1;
    if n > 0 {
      EncodeIsJoin(keys[..n]);
      JoinSnoc(EscapeAll(keys[..n]), Escape(keys[n]));
      assert EscapeAll(keys) == EscapeAll(keys[..n]) + [Escape(keys[n])];
    }
  }

  lemma {:induction false} JoinSnoc(parts: seq<string>, last: string)
    requires |parts| >= 1
    ensures Join(parts + [last]) == Join(parts) + "/" + last
  {
    if |parts| > 1 {
      JoinSnoc(parts[1..], last);
      assert (parts + [last])[1..] == parts[1..] + [last];
    }
  }

  lemma {:induction false} JoinEscaped(parts: seq<string>)
    requires |parts| >= 1
    requires forall p :: p in parts ==> Escaped(p)
    ensures Escaped(Join(parts))
  {
    if |parts| > 1 {
      JoinEscaped(parts[1..]);
      assert parts[0] in parts;
    }
  }

  /** Decoding undoes encoding, for every sequence of keys. */
  lemma DecodeEncode(keys: seq<string>)
    ensures Decode(Encode(keys)) == Some(keys)
  {
    hide Split, Join, Unescape, Escape;
    if keys != [] {
      EncodeIsJoin(keys);
      var parts := EscapeAll(keys);
      EscapedParts(keys);
      JoinEscaped(parts);
      EscapedAfterSlash(Join(parts));
      SplitJoin(parts);
      assert Encode(keys)[1..] == Join(parts);
      forall i | 0 <= i < |keys| ensures Unescape(parts[i]) == keys[i] {
        UnescapeEscape(keys[i]);
      }
      assert UnescapeAll(parts) == keys;
    }
  }

  lemma EscapedAfterSlash(s: string)
    requires Escaped(s)
    ensures Valid("/" + s)
  {
  }

  /** Encoding undoes decoding, for every pointer the policy accepts. */
  lemma EncodeDecode(path: string)
    requires Decode(path).Some?
    ensures Encode(Decode(path).value) == path
  {
    hide Split, Join, Unescape, Escape, Encode, Escaped;
    EncodeNone();
    if path != "" {
      var text := path[1..];
      JoinSplit(text);
      SplitEscaped(path);
      var keys := UnescapeAll(Split(text));
      assert EscapeAll(keys) == Split(text);
      EncodeIsJoin(keys);
      assert path == "/" + text;
    }
  }

  lemma SplitEscaped(path: string)
    requires Valid(path) && path != ""
    ensures forall i :: 0 <= i < |Split(path[1..])| ==> Escape(Unescape(Split(path[1..])[i])) == Split(path[1..])[i]
  {
    hide Split, Unescape, Escape;
    var text := path[1..];
    SplitHasNoSlash(text);
    forall i | 0 <= i < |Split(text)| ensures Escape(Unescape(Split(text)[i])) == Split(text)[i] {
      PartEscaped(text, i);
      EscapeUnescape(Split(text)[i]);
    }
  }

  lemma {:induction false} PartEscaped(s: string, i: nat)
    requires Escaped(s) && i < |Split(s)|
    ensures Escaped(Split(s)[i])
  {
    if s != "" {
      if s[0] == '/' {
        if i > 0 {
          PartEscaped(s[1..], i - 1);
        }
      } else if s[0] == '~' {
        // the escape is two characters long, and neither is a slash
        var tail := Split(s[2..]);
        assert Split(s[1..]) == [[s[1]] + tail[0]] + tail[1..] by { assert s[1..][1..] == s[2..]; }
        assert Split(s) == [[s[0]] + ([s[1]] + tail[0])] + tail[1..];
        PartEscaped(s[2..], i);
      } else {
        PartEscaped(s[1..], i);
      }
    }
  }

  /** A walked path is a policy's path exactly when their key sequences are equal. */
  lemma SamePathSameKeys(walked: seq<string>, path: string)
    requires Decode(path).Some?
    ensures Encode(walked) == path <==> walked == Decode(path).value
  {
    DecodeEncode(walked);
    EncodeDecode(path);
  }

  /** The textual prefix test of the overlap check is the prefix relation on keys. */
  lemma PrefixIsKeyPrefix(a: seq<string>, b: seq<string>)
    ensures Encode(b) + "/" <= Encode(a) <==> |b| < |a| && b == a[..|b|]
  {
    hide Encode;
    if |b| < |a| && b == a[..|b|] {
      EncodePrefix(a, |b|);
    }
    if Encode(b) + "/" <= Encode(a) {
      var rest := Encode(a)[|Encode(b)| + 1..];
      KeysOfExtension(a, b, rest);
    }
  }

  lemma KeysOfExtension(a: seq<string>, b: seq<string>, rest: string)
    requires Encode(a) == Encode(b) + "/" + rest
    ensures |b| < |a| && b == a[..|b|]
  {
    hide Split, Join, Unescape, Escape, Encode, Escaped;
    DecodeEncode(a);
    EncodeNone();
    if b != [] {
      EncodeIsJoin(b);
      EscapedParts(b);
      SplitJoinAppend(EscapeAll(b), rest);
      DropSlash(Join(EscapeAll(b)), rest);
      FirstKeys(a, b, Split(rest));
    }
  }

  lemma DropSlash(text: string, rest: string)
    ensures ("/" + text + "/" + rest)[1..] == text + "/" + rest
  {
  }

  lemma FirstKeys(a: seq<string>, b: seq<string>, more: seq<string>)
    requires a == UnescapeAll(EscapeAll(b) + more) && |more| >= 1
    ensures |b| < |a| && b == a[..|b|]
  {
    hide Unescape, Escape;
    forall i | 0 <= i < |b| ensures a[i] == b[i] {
      assert (EscapeAll(b) + more)[i] == Escape(b[i]);
      UnescapeEscape(b[i]);
    }
  }

  lemma EncodeNone()
    ensures Encode([]) == ""
  {
  }

  lemma EscapedParts(keys: seq<string>)
    ensures forall p :: p in EscapeAll(keys) ==> NoSlash(p) && Escaped(p)
  {
    forall p | p in EscapeAll(keys) ensures NoSlash(p) && Escaped(p) {
      var i :| 0 <= i < |keys| && EscapeAll(keys)[i] == p;
      EscapeIsEscaped(keys[i]);
    }
  }

  lemma {:induction false} EncodePrefix(a: seq<string>, n: nat)
    requires n < |a|
    ensures Encode(a[..n]) + "/" <= Encode(a)
    decreases |a|
  {
    var m := |a| - 1;
    if n < m {
      EncodePrefix(a[..m], n);
      assert a[..m][..n] == a[..n];
    }
  }

  lemma {:induction false} SplitJoinAppend(parts: seq<string>, rest: string)
    requires |parts| >= 1 && forall p :: p in parts ==> NoSlash(p)
    ensures Split(Join(parts) + "/" + rest) == parts + Split(rest)
  {
    if |parts| == 1 {
      SplitFirst(parts[0], rest);
    } else {
      SplitJoinAppend(parts[1..], rest);
      SplitFirst(parts[0], Join(parts[1..]) + "/" + rest);
      assert Join(parts) + "/" + rest == parts[0] + "/" + (Join(parts[1..]) + "/" + rest);
      assert [parts[0]] + (parts[1..] + Split(rest)) == parts + Split(rest);
    }
  }
}
