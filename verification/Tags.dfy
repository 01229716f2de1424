/** Tags of clause 20.2.1 of ANSI/ASHRAE 135-2024: the decoder of one tag, and
    that what it returns depends on the octets of that tag alone. */
module Tags {
  import opened Octets

  datatype Kind = Open | Close | Value

  /** What read_tag returns; `next` may lie past the end of the data, because the slice
      that takes the content truncates. */
  datatype Tag = Tag(number: byte, isContext: bool, kind: Kind, body: octets, next: nat)

  predicate IsContext(first: byte) { first / 8 % 2 == 1 }

  /** Where the octets after the tag number start. */
  function NumberEnd(d: octets): nat
    requires d != []
  {
    if d[0] / 16 == 15 then 2 else 1
  }

  /** The length, escaped at 5 into one octet and from there at 254 and 255 into two and
      four; with it the position of the content. */
  function ReadLength(d: octets, i: nat, lengthValue: nat): (r: Outcome<(nat, nat)>)
    ensures r.Ok? ==> i <= r.value.1
  {
    if lengthValue != 5 then Ok((lengthValue, i))
    else if i >= |d| then Raise(IndexError)
    else if d[i] == 254 then
      var length :- Unpack(Slice(d, i + 1, i + 3), 2);
      Ok((length, i + 3))
    else if d[i] == 255 then
      var length :- Unpack(Slice(d, i + 1, i + 5), 4);
      Ok((length, i + 5))
    else Ok((d[i], i + 1))
  }

  /** The content: an application BOOLEAN keeps its value in the length field. */
  function Content(d: octets, number: byte, isContext: bool, length: nat, start: nat): (r: Outcome<Tag>)
    ensures r.Ok? ==> start <= r.value.next && r.value.kind == Value
  {
    if !isContext && number == 1 then
      if length < 256 then Ok(Tag(1, false, Value, [length], start)) else Raise(ValueError)
    else Ok(Tag(number, isContext, Value, Slice(d, start, start + length), start + length))
  }

  /** read_tag at the front of `d`. */
  function ReadFirst(d: octets): (r: Outcome<Tag>)
    ensures r.Ok? ==> d != [] && 0 < r.value.next
    ensures r.Ok? && r.value.kind != Value ==> r.value.next <= |d|
  {
    if d == [] then Raise(IndexError) else
    var after := NumberEnd(d);
    if after > |d| then Raise(IndexError) else
    var number: byte := if after == 2 then d[1] else d[0] / 16;
    var isContext := IsContext(d[0]);
    if isContext && d[0] % 8 == 6 then Ok(Tag(number, true, Open, [], after))
    else if isContext && d[0] % 8 == 7 then Ok(Tag(number, true, Close, [], after))
    else
      var (length, start) :- ReadLength(d, after, d[0] % 8);
      Content(d, number, isContext, length, start)
  }

  /** read_tag: every successful read strictly advances. */
  function ReadTag(data: octets, position: nat): (r: Outcome<Tag>)
    ensures r.Ok? ==> position < |data| && position < r.value.next
    ensures r.Ok? && r.value.kind != Value ==> r.value.next <= |data|
  {
    if position >= |data| then Raise(IndexError) else
    var tag :- ReadFirst(data[position..]);
    Ok(tag.(next := position + tag.next))
  }

  // ---- reading a tag looks at its own octets only ----

  lemma SliceLocal(a: octets, b: octets, n: nat, i: nat, j: nat)
    requires n <= |a| && n <= |b| && a[..n] == b[..n] && i <= j <= n
    ensures Slice(a, i, j) == Slice(b, i, j)
  {
    assert a[i..j] == a[..n][i..j];
    assert b[i..j] == b[..n][i..j];
  }

  lemma ReadLengthLocal(a: octets, b: octets, n: nat, i: nat, lengthValue: nat, length: nat, start: nat)
    requires n <= |a| && n <= |b| && a[..n] == b[..n] && start <= n
    requires ReadLength(a, i, lengthValue) == Ok((length, start))
    ensures ReadLength(b, i, lengthValue) == Ok((length, start))
  {
    if lengthValue == 5 {
      assert a[i] == a[..n][i] == b[i];
      if a[i] == 254 {
        SliceLocal(a, b, n, i + 1, i + 3);
      } else if a[i] == 255 {
        SliceLocal(a, b, n, i + 1, i + 5);
      }
    }
  }

  lemma ContentLocal(a: octets, b: octets, n: nat, number: byte, isContext: bool, length: nat, start: nat, tag: Tag)
    requires n <= |a| && n <= |b| && a[..n] == b[..n]
    requires Content(a, number, isContext, length, start) == Ok(tag) && tag.next <= n
    ensures Content(b, number, isContext, length, start) == Ok(tag)
  {
    if isContext || number != 1 {
      SliceLocal(a, b, n, start, start + length);
    }
  }

  lemma ReadFirstLocal(a: octets, b: octets, n: nat, tag: Tag)
    requires n <= |a| && n <= |b| && a[..n] == b[..n]
    requires ReadFirst(a) == Ok(tag) && tag.next <= n
    ensures ReadFirst(b) == Ok(tag)
  {
    hide ReadLength, Content;
    assert a[0] == a[..n][0] == b[0];
    var after := NumberEnd(a);
    assert after <= n by { assert tag.kind == Value ==> after <= ReadLength(a, after, a[0] % 8).value.1 <= tag.next; }
    if after == 2 {
      assert a[1] == a[..n][1] == b[1];
    }
    if tag.kind == Value {
      var (length, start) := ReadLength(a, after, a[0] % 8).value;
      ReadLengthLocal(a, b, n, after, a[0] % 8, length, start);
      ContentLocal(a, b, n, if after == 2 then a[1] else a[0] / 16, IsContext(a[0]), length, start, tag);
    }
  }

  /** Two places that show the same octets give the same tag, when the tag lies within them. */
  lemma ReadTagLocal(a: octets, p: nat, b: octets, q: nat, n: nat, tag: Tag)
    requires p + n <= |a| && q + n <= |b| && a[p..p + n] == b[q..q + n]
    requires ReadTag(a, p) == Ok(tag.(next := p + tag.next)) && tag.next <= n
    ensures ReadTag(b, q) == Ok(tag.(next := q + tag.next))
  {
    hide ReadFirst;
    assert a[p..][..n] == a[p..p + n] && b[q..][..n] == b[q..q + n];
    ReadFirstLocal(a[p..], b[q..], n, tag);
  }

  /** `e` is exactly one tag, with this content. */
  predicate Element(e: octets, number: byte, isContext: bool, kind: Kind, body: octets) {
    ReadTag(e, 0) == Ok(Tag(number, isContext, kind, body, |e|))
  }

  /** `e` is exactly one tag of this kind. */
  predicate Whole(e: octets, kind: Kind) {
    var r := ReadTag(e, 0);
    r.Ok? && r.value.kind == kind && r.value.next == |e|
  }

  /** A value whose tag number fits the first octet. */
  lemma ValueElement(e: octets, number: byte, isContext: bool, lengthValue: nat, length: nat, start: nat)
    requires number < 15 && lengthValue < 6 && e != []
    requires e[0] == number * 16 + (if isContext then 8 else 0) + lengthValue
    requires ReadLength(e, 1, lengthValue) == Ok((length, start))
    ensures ReadTag(e, 0) == Content(e, number, isContext, length, start)
  {
    hide ReadLength, Content;
    assert e[0] / 16 == number && e[0] / 8 % 2 == (if isContext then 1 else 0) && e[0] % 8 == lengthValue;
    assert e[0..] == e;
  }

  // ---- every form a tag may have ----

  /** The first octet of a tag, and the second for a tag number from 15 on. */
  function TagHead(number: byte, isContext: bool, low: nat): octets
    requires low < 8
  {
    var flags := (if isContext then 8 else 0) + low;
    if number < 15 then [number * 16 + flags] else [240 + flags, number]
  }

  /** The forms clause 20.2.1.3.1 has for a length: in the first octet, or after it in one octet, in
      two or in four. */
  datatype LengthForm = Short | One | Two | Four

  predicate Legal(form: LengthForm, length: nat) {
    match form
    case Short => length < 5
    case One => length < 254
    case Two => length < 0x1_0000
    case Four => length < 0x1_0000_0000
  }

  function LengthOctets(form: LengthForm, length: nat): octets
    requires Legal(form, length)
  {
    match form
    case Short => []
    case One => [length]
    case Two => [254] + ToBytes(length, 2)
    case Four => [255] + ToBytes(length, 4)
  }

  function TagOctets(number: byte, isContext: bool, form: LengthForm, body: octets): octets
    requires Legal(form, |body|)
  {
    TagHead(number, isContext, if form == Short then |body| else 5) + LengthOctets(form, |body|) + body
  }

  lemma HeadIsRead(e: octets, number: byte, isContext: bool, low: nat, rest: octets)
    requires low < 8 && e == TagHead(number, isContext, low) + rest
    ensures e != [] && NumberEnd(e) == |TagHead(number, isContext, low)|
    ensures IsContext(e[0]) == isContext && e[0] % 8 == low
    ensures (if NumberEnd(e) == 2 then e[1] else e[0] / 16) == number
  {
  }

  lemma LengthIsRead(head: octets, form: LengthForm, body: octets)
    requires Legal(form, |body|)
    ensures var e := head + LengthOctets(form, |body|) + body;
            ReadLength(e, |head|, if form == Short then |body| else 5) ==
            Ok((|body|, |head| + |LengthOctets(form, |body|)|))
  {
    hide ToBytes, FromBytes;
    var n, i := |body|, |head|;
    var e := head + LengthOctets(form, n) + body;
    Pow256Values();
    if form == Two {
      FromToBytes(n, 2);
      assert Slice(e, i + 1, i + 3) == ToBytes(n, 2);
    } else if form == Four {
      FromToBytes(n, 4);
      assert Slice(e, i + 1, i + 5) == ToBytes(n, 4);
    }
  }

  /** Every tag of a value, with every tag number, class and content and in every form its length may
      have, is read as exactly that; and so are opening and closing tags, and an application BOOLEAN,
      which keeps its value in the length. */
  lemma EveryTagForm(number: byte, isContext: bool, form: LengthForm, body: octets, flag: nat)
    requires Legal(form, |body|) && flag < 5
    ensures isContext || number != 1 ==>
              Element(TagOctets(number, isContext, form, body), number, isContext, Value, body)
    ensures Element(TagHead(number, true, 6), number, true, Open, [])
    ensures Element(TagHead(number, true, 7), number, true, Close, [])
    ensures Element(TagHead(1, false, flag), 1, false, Value, [flag])
  {
    hide ReadLength;
    if isContext || number != 1 {
      ValueForm(number, isContext, form, body);
    }
    var open, close, boolean := TagHead(number, true, 6), TagHead(number, true, 7), TagHead(1, false, flag);
    assert open == open + [] && close == close + [] && boolean == boolean + [];
    HeadIsRead(open, number, true, 6, []);
    HeadIsRead(close, number, true, 7, []);
    HeadIsRead(boolean, 1, false, flag, []);
    assert open[0..] == open && close[0..] == close && boolean[0..] == boolean;
    PlainLengthIs(boolean, flag);
  }

  lemma PlainLengthIs(e: octets, length: nat)
    requires length < 5
    ensures ReadLength(e, 1, length) == Ok((length, 1))
  {
  }

  lemma ValueForm(number: byte, isContext: bool, form: LengthForm, body: octets)
    requires Legal(form, |body|) && (isContext || number != 1)
    ensures Element(TagOctets(number, isContext, form, body), number, isContext, Value, body)
  {
    hide ReadLength, LengthOctets, TagHead, Slice;
    var low := if form == Short then |body| else 5;
    var head, length := TagHead(number, isContext, low), LengthOctets(form, |body|);
    var e := TagOctets(number, isContext, form, body);
    assert e == head + (length + body) && e[0..] == e;
    HeadIsRead(e, number, isContext, low, length + body);
    LengthIsRead(head, form, body);
    SliceTail(head + length, body);
  }

  /** A tag cut short, in each of its forms and at each place: inside the tag number and where the
      first length octet should be it is an IndexError, inside a longer length a struct.error, and
      inside the content no error at all, but less content and an end past the end of the data. */
  lemma EveryCut(number: byte, isContext: bool, form: LengthForm, body: octets, k: nat)
    requires Legal(form, |body|) && (isContext || number != 1) && k < |TagOctets(number, isContext, form, body)|
    ensures var e := TagOctets(number, isContext, form, body);
            var head := if number < 15 then 1 else 2;
            var length := match form case Short => 0 case One => 1 case Two => 3 case Four => 5;
            ReadTag(e[..k], 0) ==
            if k < head || (k == head && form != Short) then Raise(IndexError)
            else if k < head + length then Raise(StructError)
            else Ok(Tag(number, isContext, Value, body[..k - head - length], |e|))
  {
    hide ReadLength, LengthOctets, TagHead, Slice;
    var low := if form == Short then |body| else 5;
    var head, length := TagHead(number, isContext, low), LengthOctets(form, |body|);
    var e := TagOctets(number, isContext, form, body);
    HeadLength(number, isContext, low);
    LengthLength(form, |body|);
    var cut := e[..k];
    assert cut[0..] == cut;
    if k < |head| {
      CutHead(number, isContext, low, k, length + body);
      assert e == head + (length + body);
    } else {
      var rest := (length + body)[..k - |head|];
      assert cut == head + rest;
      HeadIsRead(cut, number, isContext, low, rest);
      CutLengthIs(head, form, body, k);
      if k >= |head| + |length| {
        CutBody(head + length, body, k);
      }
    }
  }

  lemma CutBody(before: octets, body: octets, k: nat)
    requires |before| <= k < |before| + |body|
    ensures Slice((before + body)[..k], |before|, |before| + |body|) == body[..k - |before|]
  {
  }

  lemma HeadLength(number: byte, isContext: bool, low: nat)
    requires low < 8
    ensures |TagHead(number, isContext, low)| == if number < 15 then 1 else 2
  {
  }

  lemma LengthLength(form: LengthForm, length: nat)
    requires Legal(form, length)
    ensures |LengthOctets(form, length)| == match form case Short => 0 case One => 1 case Two => 3 case Four => 5
  {
  }

  lemma CutHead(number: byte, isContext: bool, low: nat, k: nat, rest: octets)
    requires low < 8 && k < |TagHead(number, isContext, low)|
    ensures ReadFirst((TagHead(number, isContext, low) + rest)[..k]) == Raise(IndexError)
    ensures ReadTag((TagHead(number, isContext, low) + rest)[..k], 0) == Raise(IndexError)
  {
    hide ReadLength;
    var e := TagHead(number, isContext, low) + rest;
    assert e[..k][0..] == e[..k];
  }

  lemma CutLengthIs(head: octets, form: LengthForm, body: octets, k: nat)
    requires Legal(form, |body|)
    requires |head| <= k < |head| + |LengthOctets(form, |body|)| + |body|
    ensures var e := head + LengthOctets(form, |body|) + body; var end := |head| + |LengthOctets(form, |body|)|;
            ReadLength(e[..k], |head|, if form == Short then |body| else 5) ==
            if k >= end then Ok((|body|, end)) else if k == |head| then Raise(IndexError) else Raise(StructError)
  {
    hide ToBytes, FromBytes;
    var n, i := |body|, |head|;
    var length := LengthOctets(form, n);
    var e := head + length + body;
    if k >= i + |length| {
      LengthIsRead(head, form, body);
      assert e[..k][..k] == e[..k];
      ReadLengthLocal(e, e[..k], k, i, if form == Short then n else 5, n, i + |length|);
    } else if k > i {
      assert e[i] == length[0] == e[..k][i];
    }
  }

  /** An application BOOLEAN whose value does not fit an octet raises. */
  lemma BooleanTooLarge(v: nat)
    requires v < 0x1_0000
    ensures ReadTag([0x15, 254] + ToBytes(v, 2), 0) ==
            if v < 256 then Ok(Tag(1, false, Value, [v], 4)) else Raise(ValueError)
  {
    hide ToBytes, FromBytes;
    var e := [0x15, 254] + ToBytes(v, 2);
    Pow256Values();
    FromToBytes(v, 2);
    assert Slice(e, 2, 4) == ToBytes(v, 2);
    assert e[0..] == e;
  }

  lemma ElementAt(data: octets, position: nat, e: octets, number: byte, isContext: bool, kind: Kind, body: octets)
    requires At(data, position, e) && Element(e, number, isContext, kind, body)
    ensures ReadTag(data, position) == Ok(Tag(number, isContext, kind, body, position + |e|))
    ensures e != []
  {
    hide ReadTag;
    assert e[0..0 + |e|] == e;
    ReadTagLocal(e, 0, data, position, |e|, Tag(number, isContext, kind, body, |e|));
  }

  lemma WholeAt(data: octets, position: nat, e: octets, kind: Kind)
    requires At(data, position, e) && Whole(e, kind)
    ensures ReadTag(data, position).Ok?
    ensures var tag := ReadTag(data, position).value; tag.kind == kind && tag.next == position + |e|
    ensures e != []
  {
    hide ReadTag;
    var tag := ReadTag(e, 0).value;
    ElementAt(data, position, e, tag.number, tag.isContext, tag.kind, tag.body);
  }

  /** A tag that ends within the data is a whole tag by itself. */
  lemma WholeThere(data: octets, position: nat)
    requires ReadTag(data, position).Ok? && ReadTag(data, position).value.next <= |data|
    ensures Whole(data[position..ReadTag(data, position).value.next], ReadTag(data, position).value.kind)
  {
    hide ReadTag;
    var tag := ReadTag(data, position).value;
    var n := tag.next - position;
    var e := data[position..tag.next];
    assert data[position..position + n] == e[0..0 + n];
    ReadTagLocal(data, position, e, 0, n, tag.(next := n));
  }
}
