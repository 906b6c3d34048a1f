/** The Offers screen stores its two description parts in the record's one
    `description` field, joined by the separator `|||`; reading splits on
    it the way JavaScript's `String.prototype.split` does and keeps the
    first two pieces. */
module DescriptionCodec {
  import opened Wrappers

  const Sep: string := "|||"

  /** The separator starts at index `i` of `s`. */
  predicate OccursAt(s: string, i: int) {
    0 <= i && i + |Sep| <= |s| && s[i..i + |Sep|] == Sep
  }

  predicate Contains(s: string) {
    exists i | 0 <= i <= |s| :: OccursAt(s, i)
  }

  /** The first occurrence of the separator at or after index `k`. */
  function FindFrom(s: string, k: nat): (r: Option<nat>)
    requires k <= |s|
    ensures r.Some? ==> k <= r.value && OccursAt(s, r.value)
    ensures r.Some? ==> forall j :: k <= j < r.value ==> !OccursAt(s, j)
    ensures r.None? ==> forall j :: k <= j ==> !OccursAt(s, j)
    decreases |s| - k
  {
    if k + |Sep| > |s| then None
    else if OccursAt(s, k) then Some(k)
    else FindFrom(s, k + 1)
  }

  /** The pieces joined back together with the separator. */
  function Join(parts: seq<string>): string
    requires |parts| >= 1
  {
    if |parts| == 1 then parts[0] else parts[0] + Sep + Join(parts[1..])
  }

  /** An occurrence inside a prefix is an occurrence in the whole string. */
  lemma PrefixOccurrence(s: string, i: nat, j: int)
    requires i <= |s|
    requires OccursAt(s[..i], j)
    ensures OccursAt(s, j)
  {
    assert s[..i][j..j + |Sep|] == s[j..j + |Sep|];
  }

  /** `p` followed by the separator is a prefix of `s`. */
  predicate Leads(p: string, s: string) {
    |p| + |Sep| <= |s| && s[..|p| + |Sep|] == p + Sep
  }

  /** `p` is the piece a left-to-right split cuts off the front of `s`:
      all of `s` when it holds no separator, else the text before its
      leftmost separator. */
  predicate FirstPiece(p: string, s: string) {
    if Contains(s) then FirstPartSafe(p) && Leads(p, s) else p == s
  }

  /** `s.split("|||")`: the pieces between successive non-overlapping
      occurrences, scanning left to right. None of them contains the
      separator, every piece but the last ends where the leftmost
      remaining separator starts, and joining them gives `s` back;
      `SplitUnique` shows these facts pin the pieces down. */
  function Split(s: string): (parts: seq<string>)
    ensures |parts| >= 1
    ensures |parts| == 1 <==> !Contains(s)
    ensures FirstPiece(parts[0], s)
    ensures forall k :: 0 <= k < |parts| ==> !Contains(parts[k])
    ensures forall k :: 0 <= k < |parts| - 1 ==> FirstPartSafe(parts[k])
    ensures Join(parts) == s
    decreases |s|
  {
    match FindFrom(s, 0)
    case None => [s]
    case Some(i) =>
      var rest := Split(s[i + |Sep|..]);
      LeftmostHead(s, i);
      assert ([s[..i]] + rest)[1..] == rest;
      [s[..i]] + rest
  }

  /** The text before the leftmost separator holds none, does not end in
      `|`, and is followed by the separator. */
  lemma LeftmostHead(s: string, i: nat)
    requires FindFrom(s, 0) == Some(i)
    ensures FirstPartSafe(s[..i]) && Leads(s[..i], s)
    ensures s == s[..i] + Sep + s[i + |Sep|..]
  {
    var head := s[..i];
    assert !Contains(head) by {
      forall j | OccursAt(head, j) ensures false {
        PrefixOccurrence(s, i, j);
      }
    }
    if i > 0 {
      assert !OccursAt(s, i - 1);
      assert s[i..i + |Sep|] == Sep;
      assert s[i - 1..i + 2] == [s[i - 1]] + s[i..i + 2];
      assert s[i..i + 2] == s[i..i + |Sep|][..2];
    }
    assert s == s[..i] + s[i..i + |Sep|] + s[i + |Sep|..];
  }

  /** A piece cut off the front of a string is the only one: two
      candidates for the first piece coincide. */
  lemma FirstPieceUnique(p: string, q: string, s: string)
    requires FirstPiece(p, s) && FirstPiece(q, s)
    ensures p == q
  {
    if Contains(s) {
      if |p| < |q| {
        assert s == Combine(q, s[|q| + |Sep|..]);
        NoEarlyOccurrence(q, s[|q| + |Sep|..], |p|);
      } else if |q| < |p| {
        assert s == Combine(p, s[|p| + |Sep|..]);
        NoEarlyOccurrence(p, s[|p| + |Sep|..], |q|);
      } else {
        assert p == s[..|p| + |Sep|][..|p|];
        assert q == s[..|q| + |Sep|][..|q|];
      }
    }
  }

  /** The split is the only list of pieces that joins back to `s` with no
      separator inside a piece and each piece but the last cut at the
      leftmost separator. */
  lemma {:induction false} SplitUnique(parts: seq<string>, s: string)
    requires |parts| >= 1 && Join(parts) == s
    requires forall k :: 0 <= k < |parts| ==> !Contains(parts[k])
    requires forall k :: 0 <= k < |parts| - 1 ==> FirstPartSafe(parts[k])
    ensures parts == Split(s)
    decreases |parts|
  {
    if |parts| == 1 {
      assert s == parts[0];
    } else {
      var tail := Join(parts[1..]);
      assert s == Combine(parts[0], tail);
      FirstPieceOfJoined(parts[0], tail);
      SplitUnique(parts[1..], tail);
      assert s[..|parts[0]|] == parts[0];
      assert s[|parts[0]| + |Sep|..] == tail;
      assert parts == [parts[0]] + parts[1..];
    }
  }

  /** `splitDescription`: the first two pieces, a missing one read as "";
      an absent or empty description gives two empty parts. The first
      part is the description's first piece; when the description holds a
      separator, the second part is the first piece of what follows it,
      so every later piece is dropped. */
  function SplitDescription(description: Option<string>): (r: (string, string))
    ensures description.None? || description == Some("") ==> r == ("", "")
    ensures !Contains(r.0) && !Contains(r.1)
    ensures description.Some? && !Contains(description.value) ==> r == (description.value, "")
    ensures description.Some? ==> FirstPiece(r.0, description.value)
    ensures description.Some? && Contains(description.value) ==>
              Leads(r.0, description.value)
              && FirstPiece(r.1, description.value[|r.0| + |Sep|..])
  {
    if description.None? || description == Some("") then ("", "")
    else
      var d := description.value;
      var parts := Split(d);
      match FindFrom(d, 0)
      case None => (parts[0], "")
      case Some(i) =>
        assert parts == [d[..i]] + Split(d[i + |Sep|..]);
        (parts[0], parts[1])
  }

  /** `${d1}|||${d2}`, the description sent by add and edit. */
  function Combine(d1: string, d2: string): (r: string)
    ensures |r| == |d1| + |Sep| + |d2|
    ensures r[..|d1|] == d1 && r[|d1| + |Sep|..] == d2
    ensures OccursAt(r, |d1|)
  {
    d1 + Sep + d2
  }

  /** A first part that survives the round trip: no separator inside, and
      no trailing `|` that would merge with the separator's first bars. */
  predicate FirstPartSafe(d: string) {
    !Contains(d) && (|d| == 0 || d[|d| - 1] != '|')
  }

  /** Before the separator that `Combine` inserts, a safe first part
      leaves no occurrence of it. */
  lemma NoEarlyOccurrence(d1: string, d2: string, j: int)
    requires FirstPartSafe(d1)
    requires 0 <= j < |d1|
    ensures !OccursAt(Combine(d1, d2), j)
  {
    var c := Combine(d1, d2);
    if j + |Sep| <= |d1| {
      assert !OccursAt(d1, j);
      assert c[j..j + |Sep|] == d1[j..j + |Sep|];
    } else {
      assert c[|d1| - 1] == d1[|d1| - 1];
      if j + |Sep| <= |c| {
        assert c[j..j + |Sep|][|d1| - 1 - j] == c[|d1| - 1];
      }
    }
  }

  lemma FirstPieceOfJoined(d1: string, d2: string)
    ensures FindFrom(Combine(d1, d2), 0).Some?
    ensures FirstPartSafe(d1) ==> FindFrom(Combine(d1, d2), 0) == Some(|d1|)
    ensures !FirstPartSafe(d1) ==> FindFrom(Combine(d1, d2), 0).value < |d1|
  {
    var c := Combine(d1, d2);
    assert c[|d1|..|d1| + |Sep|] == Sep;
    assert OccursAt(c, |d1|);
    var f := FindFrom(c, 0);
    if FirstPartSafe(d1) {
      forall j | 0 <= j < |d1| ensures !OccursAt(c, j) {
        NoEarlyOccurrence(d1, d2, j);
      }
    } else if Contains(d1) {
      var j :| 0 <= j <= |d1| && OccursAt(d1, j);
      assert c[..|d1|] == d1;
      PrefixOccurrence(c, |d1|, j);
    } else {
      assert c[|d1| - 1..|d1| + 2] == Sep;
      assert OccursAt(c, |d1| - 1);
    }
  }

  /** The codec's round trip holds exactly when the first part is safe and
      the second part holds no separator. */
  lemma RoundTrip(d1: string, d2: string)
    ensures SplitDescription(Some(Combine(d1, d2))) == (d1, d2)
            <==> FirstPartSafe(d1) && !Contains(d2)
  {
    var c := Combine(d1, d2);
    FirstPieceOfJoined(d1, d2);
    var i := FindFrom(c, 0).value;
    assert c != "" by { assert |c| >= |Sep|; }
    var parts := Split(c);
    assert parts == [c[..i]] + Split(c[i + |Sep|..]);
    if FirstPartSafe(d1) {
      assert c[..i] == d1;
      assert c[i + |Sep|..] == d2;
      var rest := Split(d2);
      assert parts[1] == rest[0];
      if Contains(d2) {
        assert |rest[0]| < |d2| by {
          assert d2 == rest[0] + Sep + Join(rest[1..]);
        }
      } else {
        assert rest == [d2];
      }
    } else {
      assert |parts[0]| < |d1|;
    }
  }

  /** The condition "neither part contains the separator" is not enough:
      a first part ending in `|` loses that bar to the second part. */
  lemma NaiveConditionInsufficient()
    ensures !Contains("a|") && !Contains("b")
    ensures SplitDescription(Some(Combine("a|", "b"))) == ("a", "|b")
  {
    assert !Contains("b") by {
      forall j | OccursAt("b", j) ensures false { }
    }
    assert !Contains("a|") by {
      forall j | OccursAt("a|", j) ensures false { }
    }
    var c := Combine("a|", "b");
    assert c == "a||||b";
    FirstPieceOfJoined("a|", "b");
    assert OccursAt(c, 1);
    assert FindFrom(c, 0) == Some(1) by {
      assert c[0..|Sep|][0] == 'a';
      assert !OccursAt(c, 0);
    }
    assert c[1 + |Sep|..] == "|b";
    assert Split("|b") == ["|b"] by {
      assert FindFrom("|b", 0).None?;
    }
    assert c[..1] == "a";
    assert Split(c) == [c[..1]] + Split(c[1 + |Sep|..]);
    assert Split(c) == ["a", "|b"];
  }

  /** The parts of a non-empty description are its first two pieces. */
  lemma PartsArePieces(description: string)
    requires description != ""
    ensures var parts := Split(description);
      SplitDescription(Some(description)) == (parts[0], if |parts| > 1 then parts[1] else "")
  {
  }

  /** With three or more pieces, the two kept parts joined again are a
      proper prefix of the pieces joined. */
  lemma {:induction false} LaterPiecesLost(parts: seq<string>)
    requires |parts| > 2
    ensures |Combine(parts[0], parts[1])| < |Join(parts)|
    ensures Join(parts)[..|Combine(parts[0], parts[1])|] == Combine(parts[0], parts[1])
  {
    var more := Join(parts[2..]);
    assert Join(parts[1..]) == parts[1] + Sep + more;
    var c := Combine(parts[0], parts[1]);
    assert Join(parts) == c + (Sep + more);
  }

  /** Splitting a stored description and joining its two parts again
      reproduces it exactly when it splits into exactly two pieces; with
      three or more the later pieces are lost and the rewrite is a proper
      prefix of the original. */
  lemma ResplitUnchanged(description: string)
    ensures var (d1, d2) := SplitDescription(Some(description));
      Combine(d1, d2) == description <==> |Split(description)| == 2
    ensures var (d1, d2) := SplitDescription(Some(description));
      |Split(description)| > 2 ==>
        |Combine(d1, d2)| < |description| && description[..|Combine(d1, d2)|] == Combine(d1, d2)
  {
    if description == "" {
      assert Split("") == [""];
    } else {
      var parts := Split(description);
      PartsArePieces(description);
      if |parts| == 1 {
        assert Join(parts) == parts[0];
      } else if |parts| == 2 {
        assert Join(parts[1..]) == parts[1];
      } else {
        LaterPiecesLost(parts);
      }
    }
  }

  /** Pieces after the second are dropped: `"a|||b|||c"` reads as `("a", "b")`. */
  lemma ThirdPieceDropped()
    ensures Split("a|||b|||c") == ["a", "b", "c"]
    ensures SplitDescription(Some("a|||b|||c")) == ("a", "b")
  {
    forall x | x in ["a", "b", "c"] ensures !Contains(x) {
      forall j | OccursAt(x, j) ensures false { }
    }
    assert Join(["a", "b", "c"]) == "a|||b|||c";
    SplitUnique(["a", "b", "c"], "a|||b|||c");
    PartsArePieces("a|||b|||c");
  }

  /** Splitting is leftmost: of the four bars in `"||||"` the first three
      form the separator, leaving `""` and `"|"`. */
  lemma LeftmostCut()
    ensures Split("||||") == ["", "|"]
  {
    assert !Contains("") && !Contains("|") by {
      forall j | OccursAt("|", j) ensures false { }
    }
    assert Join(["", "|"]) == "||||";
    SplitUnique(["", "|"], "||||");
  }
}
