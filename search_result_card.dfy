/**
 * `SearchResultCard` (apps/web/src/components/search/search-result-card.tsx):
 * what one card shows for an entity. The ABN is regrouped by
 * `abn.replace(/(\d{2})(\d{3})(\d{3})(\d{3})/, '$1 $2 $3 $4')`: the regex has
 * no global flag, so only its leftmost match, the first run of eleven ASCII
 * digits, is rewritten.
 */
module SearchResultCard {
  import opened Wrappers
  import opened ApiTypes

  /** `\d` without the `u` flag: the ASCII digits only. */
  predicate IsAsciiDigit(c: char)
  {
    '0' <= c <= '9'
  }

  /** Eleven ASCII digits start at `i`: the regex matches at `i`. */
  predicate DigitRunAt(s: string, i: nat)
  {
    i + 11 <= |s| && forall k :: i <= k < i + 11 ==> IsAsciiDigit(s[k])
  }

  /** The leftmost match position at or after `from`. */
  function LeftmostRunFrom(s: string, from: nat): (r: Option<nat>)
    ensures r.Some? ==> from <= r.value && DigitRunAt(s, r.value)
    ensures r.Some? ==> forall j :: from <= j < r.value ==> !DigitRunAt(s, j)
    ensures r.None? ==> forall j :: from <= j ==> !DigitRunAt(s, j)
    decreases |s| - from
  {
    if from + 11 > |s| then None
    else if DigitRunAt(s, from) then Some(from)
    else LeftmostRunFrom(s, from + 1)
  }

  /** `'$1 $2 $3 $4'` for the eleven matched digits. */
  function Grouped(d: string): (r: string)
    requires |d| == 11
    ensures |r| == 14 && r[2] == ' ' && r[6] == ' ' && r[10] == ' '
  {
    d[..2] + " " + d[2..5] + " " + d[5..8] + " " + d[8..]
  }

  /** The displayed ABN: the leftmost run regrouped, everything around it unchanged. */
  function FormatAbn(abn: string): (r: string)
    ensures LeftmostRunFrom(abn, 0).None? ==> r == abn
    ensures LeftmostRunFrom(abn, 0).Some? ==> |r| == |abn| + 3
  {
    match LeftmostRunFrom(abn, 0)
    case None => abn
    case Some(i) => abn[..i] + Grouped(abn[i..i + 11]) + abn[i + 11..]
  }

  /** Where the leftmost run is found, the display is the ABN with that run grouped. */
  lemma FormatAt(abn: string, i: nat)
    requires LeftmostRunFrom(abn, 0) == Some(i)
    ensures i + 11 <= |abn|
    ensures FormatAbn(abn) == abn[..i] + Grouped(abn[i..i + 11]) + abn[i + 11..]
  {
  }

  /** Only the leftmost run is regrouped: what precedes it and everything after it, later runs included, is shown as is. */
  lemma OnlyLeftmostRunRegrouped(abn: string, i: nat)
    requires LeftmostRunFrom(abn, 0) == Some(i)
    ensures FormatAbn(abn)[..i] == abn[..i]
    ensures FormatAbn(abn)[i..i + 14] == Grouped(abn[i..i + 11])
    ensures FormatAbn(abn)[i + 14..] == abn[i + 11..]
  {
    FormatAt(abn, i);
    var g := Grouped(abn[i..i + 11]);
    var r := abn[..i] + g + abn[i + 11..];
    assert r[..i] == abn[..i];
    assert r[i..i + 14] == g;
    assert r[i + 14..] == abn[i + 11..];
  }

  /** An 11-digit ABN is shown as `DD DDD DDD DDD`. */
  lemma FormatElevenDigits(abn: string)
    requires |abn| == 11 && forall k :: 0 <= k < 11 ==> IsAsciiDigit(abn[k])
    ensures FormatAbn(abn) == Grouped(abn)
  {
    assert LeftmostRunFrom(abn, 0) == Some(0) by {
      assert DigitRunAt(abn, 0);
    }
    FormatAt(abn, 0);
    assert abn[..0] == "" && abn[0..11] == abn && abn[11..] == "";
  }

  /** `51824753556` reads `51 824 753 556`. */
  lemma FormatExample()
    ensures FormatAbn("51824753556") == "51 824 753 556"
  {
    var abn := "51824753556";
    FormatElevenDigits(abn);
    assert abn[..2] == "51" && abn[2..5] == "824" && abn[5..8] == "753" && abn[8..] == "556";
  }

  /** `s` with every space removed. */
  function RemoveSpaces(s: string): (r: string)
    ensures |r| <= |s|
    ensures forall k :: 0 <= k < |r| ==> r[k] != ' '
    ensures (forall k :: 0 <= k < |s| ==> s[k] != ' ') ==> r == s
  {
    if |s| == 0 then ""
    else (if s[0] == ' ' then "" else [s[0]]) + RemoveSpaces(s[1..])
  }

  lemma {:induction false} RemoveSpacesAppend(a: string, b: string)
    ensures RemoveSpaces(a + b) == RemoveSpaces(a) + RemoveSpaces(b)
    decreases |a|
  {
    if |a| == 0 {
      assert a + b == b;
    } else {
      assert (a + b)[0] == a[0];
      assert (a + b)[1..] == a[1..] + b;
      RemoveSpacesAppend(a[1..], b);
    }
  }

  lemma RemoveSpacesAround(x: string, y: string)
    ensures RemoveSpaces(x + " " + y) == RemoveSpaces(x) + RemoveSpaces(y)
  {
    assert RemoveSpaces(" ") == "" by {
      assert " "[1..] == "";
      assert RemoveSpaces(" ") == "" + RemoveSpaces("");
    }
    RemoveSpacesAppend(x, " ");
    assert RemoveSpaces(x + " ") == RemoveSpaces(x);
    RemoveSpacesAppend(x + " ", y);
  }

  /** A slice of a space-free string is space-free, so removing spaces keeps it. */
  lemma SliceSpaceFree(s: string, i: nat, j: nat)
    requires i <= j <= |s|
    requires forall k :: 0 <= k < |s| ==> s[k] != ' '
    ensures forall k :: 0 <= k < j - i ==> s[i..j][k] != ' '
    ensures RemoveSpaces(s[i..j]) == s[i..j]
  {
    assert forall k :: 0 <= k < j - i ==> s[i..j][k] == s[i + k];
  }

  /** The three spaces `Grouped` inserts are the only ones in its result. */
  lemma GroupedRoundTrip(d: string)
    requires |d| == 11 && forall k :: 0 <= k < 11 ==> d[k] != ' '
    ensures RemoveSpaces(Grouped(d)) == d
  {
    var a, b, c, e := d[0..2], d[2..5], d[5..8], d[8..11];
    assert d[..2] == a && d[8..] == e;
    SliceSpaceFree(d, 0, 2);
    SliceSpaceFree(d, 2, 5);
    SliceSpaceFree(d, 5, 8);
    SliceSpaceFree(d, 8, 11);
    RemoveSpacesAround(a + " " + b + " " + c, e);
    RemoveSpacesAround(a + " " + b, c);
    RemoveSpacesAround(a, b);
    assert a + b == d[0..5];
    assert a + b + c == d[0..8];
    assert a + b + c + e == d[0..11] == d;
  }

  /** Grouping any eleven characters of a space-free string and removing the spaces undoes itself. */
  lemma RoundTripAt(abn: string, i: nat)
    requires i + 11 <= |abn|
    requires forall k :: 0 <= k < |abn| ==> abn[k] != ' '
    ensures RemoveSpaces(abn[..i] + Grouped(abn[i..i + 11]) + abn[i + 11..]) == abn
  {
    var pre, d, post := abn[..i], abn[i..i + 11], abn[i + 11..];
    SliceSpaceFree(abn, 0, i);
    SliceSpaceFree(abn, i, i + 11);
    SliceSpaceFree(abn, i + 11, |abn|);
    assert abn[0..i] == pre && abn[i + 11..|abn|] == post;
    GroupedRoundTrip(d);
    RemoveSpacesThree(pre, Grouped(d), post);
    SplitThree(abn, i, i + 11);
  }

  lemma RemoveSpacesThree(a: string, b: string, c: string)
    ensures RemoveSpaces(a + b + c) == RemoveSpaces(a) + RemoveSpaces(b) + RemoveSpaces(c)
  {
    RemoveSpacesAppend(a + b, c);
    RemoveSpacesAppend(a, b);
  }

  lemma SplitThree(s: string, i: nat, j: nat)
    requires i <= j <= |s|
    ensures s[..i] + s[i..j] + s[j..] == s
  {
  }

  /** Removing the spaces from the display of a space-free ABN gives the ABN back. */
  lemma FormatRoundTrip(abn: string)
    requires forall k :: 0 <= k < |abn| ==> abn[k] != ' '
    ensures RemoveSpaces(FormatAbn(abn)) == abn
  {
    match LeftmostRunFrom(abn, 0)
    case None =>
    case Some(i) =>
      FormatAt(abn, i);
      RoundTripAt(abn, i);
  }

  datatype Icon = CheckCircle | XCircle

  /** The colour classes: `text-green-*`, `text-destructive`, `text-muted-foreground`. */
  datatype Tone = Green | Destructive | Muted

  datatype Badge = Badge(icon: Icon, tone: Tone, text: string)

  datatype Card = Card(
    key: string,
    name: string,
    status: Badge,
    abnText: string,
    entityType: string,
    registrationDate: string,
    location: Option<string>,
    gst: Option<Badge>)

  /** The status line: a green check for 'Active', a red cross for anything else. */
  function StatusBadge(status: EntityStatus): (b: Badge)
    ensures b.icon == CheckCircle <==> status == Active
    ensures b.tone == Green <==> status == Active
    ensures b.tone == Destructive <==> status != Active
    ensures b.text == StatusText(status)
  {
    if status == Active then Badge(CheckCircle, Green, StatusText(status))
    else Badge(XCircle, Destructive, StatusText(status))
  }

  /** The GST line: 'GST Registered' in green, or 'Not registered for GST' muted. */
  function GstBadge(gst: GstInfo): (b: Badge)
    ensures b.text == (if gst.registered then "GST Registered" else "Not registered for GST")
    ensures b.icon == CheckCircle <==> gst.registered
    ensures b.tone == (if gst.registered then Green else Muted)
  {
    if gst.registered then Badge(CheckCircle, Green, "GST Registered")
    else Badge(XCircle, Muted, "Not registered for GST")
  }

  /** `{entity.address.state} {entity.address.postcode}`. */
  function LocationLine(address: AddressInfo): (r: string)
    ensures |r| == |address.state| + 1 + |address.postcode|
    ensures r[..|address.state|] == address.state && r[|address.state|] == ' '
    ensures r[|address.state| + 1..] == address.postcode
  {
    address.state + [' '] + address.postcode
  }

  /** The card for one entity. The registration date is shown as given. */
  function RenderCard(entity: AbnEntity): (c: Card)
    ensures c.key == entity.abn && c.name == entity.name && c.entityType == entity.entityType
    ensures c.abnText == FormatAbn(entity.abn)
    ensures c.status == StatusBadge(entity.status)
    ensures c.location.Some? <==> entity.address.Some?
    ensures entity.address.Some? ==> c.location == Some(entity.address.value.state + " " + entity.address.value.postcode)
    ensures c.gst.Some? <==> entity.gst.Some?
    ensures entity.gst.Some? ==> c.gst == Some(GstBadge(entity.gst.value))
  {
    Card(
      entity.abn,
      entity.name,
      StatusBadge(entity.status),
      FormatAbn(entity.abn),
      entity.entityType,
      entity.registrationDate,
      if entity.address.Some? then Some(LocationLine(entity.address.value)) else None,
      if entity.gst.Some? then Some(GstBadge(entity.gst.value)) else None)
  }
}
