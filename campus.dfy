/** The campus site: the phone and email checks of the admission form, the
    rotating testimonial order, the programme tabs and the programme search. */
module Campus {
  import opened Options
  import EmailShape

  predicate IsAsciiDigit(c: char)
  {
    '0' <= c <= '9'
  }

  /** A character the phone check deletes before matching: '-' or \s. */
  predicate IsSeparator(c: char)
  {
    c == '-' || EmailShape.IsJsSpace(c)
  }

  /** phone.replace(/[-\s]/g, ''): every separator removed, the rest in order. */
  function StripSeparators(s: string): (t: string)
    ensures |t| <= |s|
    ensures forall k :: 0 <= k < |t| ==> !IsSeparator(t[k])
    ensures (forall k :: 0 <= k < |s| ==> !IsSeparator(s[k])) ==> t == s
  {
    if |s| == 0 then ""
    else
      assert forall k :: 0 <= k < |s| - 1 ==> s[1..][k] == s[k + 1];
      (if IsSeparator(s[0]) then "" else [s[0]]) + StripSeparators(s[1..])
  }

  /** Stripping works character by character: a separator goes, any other
      character stays, and the pieces of a string are stripped separately
      and kept in order. */
  lemma {:induction false} StripConcat(a: string, b: string)
    ensures StripSeparators(a + b) == StripSeparators(a) + StripSeparators(b)
    ensures |a| == 1 ==> StripSeparators(a) == if IsSeparator(a[0]) then "" else a
  {
    if |a| > 0 {
      assert (a + b)[0] == a[0] && (a + b)[1..] == a[1..] + b;
      StripConcat(a[1..], b);
      var head := if IsSeparator(a[0]) then "" else [a[0]];
      assert StripSeparators(a + b) == head + StripSeparators(a[1..] + b);
      assert StripSeparators(a) == head + StripSeparators(a[1..]);
    } else {
      assert a + b == b;
    }
  }

  /** The phone check: what is left after stripping is 10 to 13 ASCII
      digits. It holds exactly when the number is made of digits, '-' and
      blanks only, with 10 to 13 digits. */
  function ValidatePhone(phone: string): (ok: bool)
    ensures ok <==>
      (forall k :: 0 <= k < |phone| ==> IsAsciiDigit(phone[k]) || IsSeparator(phone[k]))
      && 10 <= DigitCount(phone) <= 13
  {
    StripKeepsDigits(phone);
    var t := StripSeparators(phone);
    10 <= |t| <= 13 && forall k :: 0 <= k < |t| ==> IsAsciiDigit(t[k])
  }

  /** The number of ASCII digits in s. */
  function DigitCount(s: string): (n: nat)
    ensures n <= |s|
  {
    if |s| == 0 then 0 else (if IsAsciiDigit(s[0]) then 1 else 0) + DigitCount(s[1..])
  }

  lemma {:induction false} StripKeepsDigits(s: string)
    ensures (forall k :: 0 <= k < |StripSeparators(s)| ==> IsAsciiDigit(StripSeparators(s)[k]))
      <==> (forall k :: 0 <= k < |s| ==> IsAsciiDigit(s[k]) || IsSeparator(s[k]))
    ensures (forall k :: 0 <= k < |s| ==> IsAsciiDigit(s[k]) || IsSeparator(s[k]))
      ==> |StripSeparators(s)| == DigitCount(s)
  {
    if |s| > 0 {
      StripKeepsDigits(s[1..]);
      var head := if IsSeparator(s[0]) then "" else [s[0]];
      var rest := StripSeparators(s[1..]);
      assert StripSeparators(s) == head + rest;
      if forall k :: 0 <= k < |s| ==> IsAsciiDigit(s[k]) || IsSeparator(s[k]) {
        assert forall k :: 0 <= k < |s[1..]| ==> IsAsciiDigit(s[1..][k]) || IsSeparator(s[1..][k]) by {
          forall k | 0 <= k < |s[1..]|
            ensures IsAsciiDigit(s[1..][k]) || IsSeparator(s[1..][k])
          {
            assert s[1..][k] == s[k + 1];
          }
        }
      }
      if forall k :: 0 <= k < |head + rest| ==> IsAsciiDigit((head + rest)[k]) {
        assert forall k :: 0 <= k < |rest| ==> IsAsciiDigit(rest[k]) by {
          forall k | 0 <= k < |rest|
            ensures IsAsciiDigit(rest[k])
          {
            assert rest[k] == (head + rest)[|head| + k];
          }
        }
        assert !IsSeparator(s[0]) ==> IsAsciiDigit((head + rest)[0]);
        forall k | 0 <= k < |s|
          ensures IsAsciiDigit(s[k]) || IsSeparator(s[k])
        {
          if k > 0 {
            assert s[k] == s[1..][k - 1];
          }
        }
      }
    }
  }

  /** The admission form's email check: the shared shape pattern. */
  function ValidateEmail(email: string): (ok: bool)
    ensures ok <==> EmailShape.MatchesPattern(email)
  {
    EmailShape.ValidEmailMatchesPattern(email);
    EmailShape.ValidEmail(email)
  }

  /** The CSS order of card i when card cur is to come first. */
  function OrderOf(n: nat, cur: nat, i: nat): int
    requires cur < n
  {
    (i - cur + n) % n
  }

  /** The order of every card: a permutation of 0 .. n-1 that puts card cur
      first, in which the card with order t is card (t + cur) mod n. */
  function Rotation(n: nat, cur: nat): (r: seq<int>)
    requires cur < n
    ensures |r| == n
    ensures forall i :: 0 <= i < n ==> r[i] == OrderOf(n, cur, i)
    ensures r[cur] == 0
    ensures forall i :: 0 <= i < n ==> 0 <= r[i] < n
    ensures forall i, j :: 0 <= i < n && 0 <= j < n && r[i] == r[j] ==> i == j
    ensures forall t :: 0 <= t < n ==> CardWithOrder(n, cur, t) < n && r[CardWithOrder(n, cur, t)] == t
  {
    OrderIsPermutation(n, cur);
    seq(n, i requires 0 <= i < n => OrderOf(n, cur, i))
  }

  /** The card that gets order t. */
  function CardWithOrder(n: nat, cur: nat, t: nat): nat
    requires cur < n
  {
    (t + cur) % n
  }

  /** The orders (i - cur + n) mod n are a permutation of 0 .. n-1 with card
      cur first; the card with order t is card (t + cur) mod n. */
  lemma OrderIsPermutation(n: nat, cur: nat)
    requires cur < n
    ensures OrderOf(n, cur, cur) == 0
    ensures forall i :: 0 <= i < n ==> 0 <= OrderOf(n, cur, i) < n
    ensures forall i, j :: 0 <= i < n && 0 <= j < n && OrderOf(n, cur, i) == OrderOf(n, cur, j) ==> i == j
    ensures forall t :: 0 <= t < n ==>
      CardWithOrder(n, cur, t) < n && OrderOf(n, cur, CardWithOrder(n, cur, t)) == t
  {
    forall i | 0 <= i < n
      ensures OrderOf(n, cur, i) == if i >= cur then i - cur else i - cur + n
    {
      RotationValue(n, cur, i);
    }
    forall t | 0 <= t < n
      ensures CardWithOrder(n, cur, t) < n && OrderOf(n, cur, CardWithOrder(n, cur, t)) == t
    {
      CardWithOrderValue(n, cur, t);
    }
  }

  lemma CardWithOrderValue(n: nat, cur: nat, t: nat)
    requires cur < n && t < n
    ensures CardWithOrder(n, cur, t) < n && OrderOf(n, cur, CardWithOrder(n, cur, t)) == t
  {
    if t + cur < n {
      ModOfSmall(t + cur, n);
      RotationValue(n, cur, t + cur);
    } else {
      ModOfWrap(t + cur, n);
      RotationValue(n, cur, t + cur - n);
    }
  }

  lemma RotationValue(n: nat, cur: nat, i: nat)
    requires cur < n && i < n
    ensures OrderOf(n, cur, i) == if i >= cur then i - cur else i - cur + n
  {
    if i >= cur {
      ModOfWrap(i - cur + n, n);
    } else {
      ModOfSmall(i - cur + n, n);
    }
  }

  lemma ModOfSmall(a: int, n: int)
    requires 0 <= a < n
    ensures a % n == a
  {
  }

  lemma ModOfWrap(a: int, n: int)
    requires n <= a < 2 * n
    ensures a % n == a - n
  {
  }

  /** The testimonial cards: their CSS order values and the index of the card
      that is to come first on the next rotation. */
  class Testimonials {
    var current: nat
    const order: array<int>

    ghost predicate Valid()
      reads this
    {
      current == 0 || current < order.Length
    }

    /** Every card starts with the default order 0. */
    constructor(count: nat)
      ensures Valid() && fresh(order) && order.Length == count && current == 0
      ensures forall i :: 0 <= i < count ==> order[i] == 0
    {
      current := 0;
      order := new int[count](_ => 0);
    }

    /** With more than three cards, reorders them so that card current comes
        first and moves current on by one, wrapping around; otherwise does
        nothing. */
    method Rotate()
      requires Valid()
      modifies this, order
      ensures Valid()
      ensures order.Length > 3 ==>
        order[..] == Rotation(order.Length, old(current))
        && current == (old(current) + 1) % order.Length
      ensures order.Length <= 3 ==> current == old(current) && order[..] == old(order[..])
    {
      var n := order.Length;
      if n > 3 {
        var cur := current;
        var index := 0;
        while index < n
          invariant 0 <= index <= n
          invariant forall i :: 0 <= i < index ==> order[i] == OrderOf(n, cur, i)
        {
          order[index] := (index - cur + n) % n;
          index := index + 1;
        }
        assert order[..] == Rotation(n, cur);
        current := (cur + 1) % n;
      }
    }
  }

  /** A programme card: its heading, its paragraph, and its data-category
      (absent when the attribute is missing). */
  datatype Card = Card(title: string, description: string, category: Option<string>)

  /** String.prototype.toLowerCase on ASCII letters. */
  function Lower(s: string): (r: string)
    ensures |r| == |s|
    ensures forall k :: 0 <= k < |s| ==> r[k] == if 'A' <= s[k] <= 'Z' then (s[k] as int + 32) as char else s[k]
  {
    if |s| == 0 then "" else
      [if 'A' <= s[0] <= 'Z' then (s[0] as int + 32) as char else s[0]] + Lower(s[1..])
  }

  /** String.prototype.includes: true exactly when q occurs in s as a
      contiguous piece. */
  function Includes(s: string, q: string): (r: bool)
    ensures r <==> Occurs(s, q)
  {
    if q <= s then
      assert OccursAt(s, q, 0);
      true
    else if |s| == 0 then false
    else
      OccursShift(s, q);
      Includes(s[1..], q)
  }

  /** q appears in s at position i. */
  ghost predicate OccursAt(s: string, q: string, i: int)
  {
    0 <= i && i + |q| <= |s| && s[i..i + |q|] == q
  }

  /** q appears as a contiguous piece of s. */
  ghost predicate Occurs(s: string, q: string)
  {
    exists i :: OccursAt(s, q, i)
  }

  /** When q is not a prefix of s, q occurs in s exactly when it occurs in
      the rest of s. */
  lemma OccursShift(s: string, q: string)
    requires |s| > 0 && !(q <= s)
    ensures Occurs(s, q) <==> Occurs(s[1..], q)
  {
    if Occurs(s[1..], q) {
      var i :| OccursAt(s[1..], q, i);
      DropOneSlice(s, i, |q|);
      assert OccursAt(s, q, i + 1);
    }
    if Occurs(s, q) {
      var i :| OccursAt(s, q, i);
      assert i > 0;
      DropOneSlice(s, i - 1, |q|);
      assert OccursAt(s[1..], q, i - 1);
    }
  }

  /** A piece of s[1..] is the piece of s one place further on. */
  lemma DropOneSlice(s: string, i: nat, len: nat)
    requires i + len + 1 <= |s|
    ensures s[1..][i..i + len] == s[i + 1..i + 1 + len]
  {
    var a, b := s[1..][i..i + len], s[i + 1..i + 1 + len];
    forall k | 0 <= k < len
      ensures a[k] == b[k]
    {
    }
  }

  /** The search rule: the lower-cased query occurs in the lower-cased
      title or description. */
  function SearchHit(card: Card, query: string): (hit: bool)
    ensures hit <==> Occurs(Lower(card.title), Lower(query)) || Occurs(Lower(card.description), Lower(query))
  {
    var q := Lower(query);
    Includes(Lower(card.title), q) || Includes(Lower(card.description), q)
  }

  /** The programme cards and their two flags: the active class (set by the
      tabs) and the display style (set by the search). */
  class Catalog {
    const cards: seq<Card>
    const active: array<bool>
    const shown: array<bool>
    var selectedTab: Option<string>

    ghost predicate Valid()
      reads this
    {
      active.Length == |cards| && shown.Length == |cards| && active != shown
    }

    constructor(programs: seq<Card>)
      ensures Valid() && cards == programs && fresh(active) && fresh(shown)
      ensures selectedTab == None
    {
      cards := programs;
      active := new bool[|programs|];
      shown := new bool[|programs|];
      selectedTab := None;
    }

    /** A tab click: the clicked tab becomes the selected one and exactly the
        cards of its category become active; a card and a tab that both lack
        the attribute match, as null === null does. */
    method SelectTab(tab: Option<string>)
      requires Valid()
      modifies this`selectedTab, active
      ensures Valid() && selectedTab == tab
      ensures forall i :: 0 <= i < |cards| ==> (active[i] <==> cards[i].category == tab)
      ensures shown[..] == old(shown[..])
    {
      selectedTab := tab;
      var i := 0;
      while i < active.Length
        invariant 0 <= i <= active.Length
        invariant forall k :: 0 <= k < i ==> (active[k] <==> cards[k].category == tab)
        invariant shown[..] == old(shown[..]) && selectedTab == tab
      {
        active[i] := cards[i].category == tab;
        i := i + 1;
      }
    }

    /** The search: a card is displayed exactly when the lower-cased query
        occurs in its lower-cased title or description. */
    method Search(query: string)
      requires Valid()
      modifies shown
      ensures forall i :: 0 <= i < |cards| ==>
        (shown[i] <==> Occurs(Lower(cards[i].title), Lower(query)) || Occurs(Lower(cards[i].description), Lower(query)))
      ensures active[..] == old(active[..])
    {
      var lowerQuery := Lower(query);
      var i := 0;
      while i < shown.Length
        invariant 0 <= i <= shown.Length
        invariant forall k :: 0 <= k < i ==>
          (shown[k] <==> Occurs(Lower(cards[k].title), lowerQuery) || Occurs(Lower(cards[k].description), lowerQuery))
        invariant active[..] == old(active[..])
      {
        shown[i] := SearchHit(cards[i], query);
        i := i + 1;
      }
    }
  }

  /** An empty query shows every card. */
  lemma EmptyQueryShowsAll(card: Card)
    ensures SearchHit(card, "")
  {
    assert OccursAt(Lower(card.title), "", 0);
  }
}
