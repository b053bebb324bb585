/** Which member names the preflight takes for safe. */
module ZipNames {
  import opened Wrappers
  import opened ZipDirectory

  /** From `i` to `j` the text holds no slash, and there is one before and after, or its end. */
  predicate SegmentAt(text: string, i: nat, j: nat) {
    i <= j <= |text| && (i == 0 || text[i - 1] == '/') && (j == |text| || text[j] == '/') &&
    forall k :: i <= k < j ==> text[k] != '/'
  }

  ghost predicate SegmentFrom(text: string, s: string, low: nat) {
    exists i: nat, j: nat :: low <= i && SegmentAt(text, i, j) && text[i..j] == s
  }

  lemma {:induction false} SegmentEnds(text: string, i: nat, j: nat, k: nat)
    requires SegmentAt(text, i, j) && SegmentAt(text, i, k)
    ensures j == k
  {
  }

  lemma {:induction false} SegmentShifts(text: string, i: nat, j: nat)
    requires text != "" && (i > 0 || text[0] == '/')
    ensures SegmentAt(text[1..], i, j) <==> SegmentAt(text, i + 1, j + 1)
    ensures i <= j < |text| ==> text[1..][i..j] == text[i + 1..j + 1]
  {
    if i <= j < |text| {
      assert text[1..][i..j] == text[i + 1..j + 1];
    }
  }

  lemma {:induction false} LaterSegments(text: string, s: string, low: nat)
    requires text != "" && (low > 0 || text[0] == '/')
    ensures SegmentFrom(text[1..], s, low) <==> SegmentFrom(text, s, low + 1)
  {
    if SegmentFrom(text[1..], s, low) {
      var i: nat, j: nat :| low <= i && SegmentAt(text[1..], i, j) && text[1..][i..j] == s;
      SegmentShifts(text, i, j);
      assert SegmentAt(text, i + 1, j + 1);
    }
    if SegmentFrom(text, s, low + 1) {
      var i: nat, j: nat :| low + 1 <= i && SegmentAt(text, i, j) && text[i..j] == s;
      SegmentShifts(text, i - 1, j - 1);
      assert SegmentAt(text[1..], i - 1, j - 1);
    }
  }

  /** The first segment comes first, and those after it are the others. */
  lemma {:induction false} SplitFirst(text: string) returns (k: nat)
    ensures SegmentAt(text, 0, k) && Split(text) != [] && Split(text)[0] == text[..k]
    ensures forall s :: s in Split(text)[1..] <==> SegmentFrom(text, s, 1)
    decreases |text|
  {
    if text == "" {
      k := 0;
    } else {
      var j := SplitFirst(text[1..]);
      var rest := Split(text[1..]);
      if text[0] == '/' {
        k := 0;
        forall s
          ensures s in rest <==> SegmentFrom(text, s, 1)
        {
          LaterSegments(text, s, 0);
          AnySegment(text[1..], s, j);
          assert s in rest <==> s == rest[0] || s in rest[1..];
        }
        assert Split(text)[1..] == rest;
      } else {
        k := j + 1;
        assert text[0..k] == [text[0]] + text[1..][0..j];
        forall s
          ensures s in rest[1..] <==> SegmentFrom(text, s, 1)
        {
          LaterSegments(text, s, 1);
          assert forall i: nat :: !SegmentAt(text, 1, i);
        }
        assert Split(text)[1..] == rest[1..];
      }
    }
  }

  lemma {:induction false} AnySegment(text: string, s: string, k: nat)
    requires SegmentAt(text, 0, k)
    ensures SegmentFrom(text, s, 0) <==> s == text[..k] || SegmentFrom(text, s, 1)
  {
    if SegmentFrom(text, s, 0) {
      var i: nat, j: nat :| SegmentAt(text, i, j) && text[i..j] == s;
      if i == 0 {
        SegmentEnds(text, 0, j, k);
      }
    }
    assert text[0..k] == text[..k];
  }

  /** Splitting a text yields exactly its segments. */
  lemma {:induction false} SplitMeans(text: string, s: string)
    ensures s in Split(text) <==> SegmentFrom(text, s, 0)
  {
    var k := SplitFirst(text);
    AnySegment(text, s, k);
    assert s in Split(text) <==> s == Split(text)[0] || s in Split(text)[1..];
  }

  /** A relative path in readable text, in ASCII or marked as UTF-8, of a member that is not encrypted. */
  ghost predicate Safe(u: Utf8, name: seq<byte>, flags: nat) {
    u(name).Some? && SafeText(u(name).value) && (flags / 2048 % 2 == 1 || forall i :: 0 <= i < |name| ==> name[i] <= 127) &&
    flags % 2 == 0 && flags / 64 % 2 == 0 && flags / 8192 % 2 == 0
  }

  predicate Readable(c: char) {
    c != '\\' && c != ':' && (' ' <= c <= '~' || c as int >= 160)
  }

  /** Neither absolute nor with a segment that stands for a directory itself or the one above it. */
  ghost predicate SafeText(text: string) {
    (forall i :: 0 <= i < |text| ==> Readable(text[i])) && !(|text| > 0 && text[0] == '/') &&
    !SegmentFrom(text, ".", 0) && !SegmentFrom(text, "..", 0)
  }

  lemma {:induction false} NameMeans(u: Utf8, name: seq<byte>, flags: nat)
    ensures NameOk(u, name, flags) <==> Safe(u, name, flags)
  {
    if u(name).Some? {
      var text := u(name).value;
      SplitMeans(text, ".");
      SplitMeans(text, "..");
      assert (forall c :: c in text ==> Readable(c)) <==> forall i :: 0 <= i < |text| ==> Readable(text[i]);
      assert forall c: char :: Readable(c) <==> c != '\\' && c != ':' && !IsControl(c);
    }
  }
}
