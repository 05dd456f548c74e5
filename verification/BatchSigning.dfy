/** Signing the URLs of many asset references at once (astro/src/manifest.ts), against signing them
    one by one. */
module BatchSigning {
  import opened Common

  datatype Kind = Thumb | Medium | Large | DisplayJpeg

  const SIGNABLE: seq<Kind> := [Thumb, Medium, Large, DisplayJpeg]

  datatype Variant = Variant(data: string, url: Option<string>, cdnUrl: Option<string>)

  /** `data` stands for the fields that are only carried along. */
  datatype Ref = Ref(key: string, data: string, url: Option<string>, cdnUrl: Option<string>, displayUrl: Option<string>,
                     immutableUrls: Option<string>, variants: map<Kind, Variant>)

  /** What a caller may pass: a reference, or something else. */
  datatype Given = Asset(ref: Ref) | Junk

  datatype Item = Item(key: string, variant: Option<Kind>)
  datatype Answer = Url(url: string) | Refused(why: string)
  datatype Error = BadRef | Rejected(why: string) | WrongCount(got: nat, want: nat) | Unsigned(item: Item, why: string)
  datatype Result<T> = Ok(value: T) | Err(error: Error)

  const BATCH := 1000

  /** A signer's call for one batch: its answers, or a rejection. */
  datatype Reply = Replied(answers: seq<Answer>) | Refuses(why: string)

  type Signer = seq<Item> -> Reply

  predicate WellFormed(g: Given) {
    g.Asset? && g.ref.key != ""
  }

  // ---------------------------------------------------------------- one by one

  function Having(kinds: seq<Kind>, ref: Ref): seq<Kind> {
    if kinds == [] then []
    else (if kinds[0] in ref.variants then [kinds[0]] else []) + Having(kinds[1..], ref)
  }

  function Kinds(ref: Ref): seq<Kind> {
    Having(SIGNABLE, ref)
  }

  function Items(ref: Ref): seq<Item> {
    ItemsFor(ref.key, Kinds(ref))
  }

  function ItemsFor(key: string, kinds: seq<Kind>): seq<Item> {
    [Item(key, None)] + seq(|kinds|, k requires 0 <= k < |kinds| => Item(key, Some(kinds[k])))
  }

  function FirstRefused(items: seq<Item>, sign: Item -> Answer): Option<Error> {
    if items == [] then None
    else if sign(items[0]).Refused? then Some(Unsigned(items[0], sign(items[0]).why))
    else FirstRefused(items[1..], sign)
  }

  function UrlOf(a: Answer): string {
    if a.Url? then a.url else ""
  }

  /** A reference signed on its own: each URL is the signer's answer for its own item. */
  function SignRef(ref: Ref, sign: Item -> Answer): Result<Ref> {
    var refused := FirstRefused(Items(ref), sign);
    if refused.Some? then Err(refused.value)
    else
      var original := UrlOf(sign(Item(ref.key, None)));
      var signed := map k | k in ref.variants ::
        var u := Some(UrlOf(sign(Item(ref.key, Some(k))))); ref.variants[k].(url := u, cdnUrl := u);
      Ok(ref.(url := Some(original), cdnUrl := Some(original), immutableUrls := None, variants := signed,
              displayUrl := if DisplayJpeg in signed then signed[DisplayJpeg].cdnUrl else Some(original)))
  }

  /** The places of a reference's items: the original, then the variants from the smallest. */
  function Place(variant: Option<Kind>): nat {
    match variant
    case None => 0
    case Some(Thumb) => 1
    case Some(Medium) => 2
    case Some(Large) => 3
    case Some(DisplayJpeg) => 4
  }

  /** What a reference needs signed: its original and each variant it has. */
  predicate Needs(ref: Ref, item: Item) {
    item.key == ref.key && (item.variant.Some? ==> item.variant.value in ref.variants)
  }

  /** A signed reference: the signed URL of the original and of each variant wherever a URL stands, the
      display URL being that of the JPEG made for display if there is one; no immutable URL, and the rest
      as it was. */
  ghost predicate SignedAs(ref: Ref, w: Ref, sign: Item -> Answer) {
    && sign(Item(ref.key, None)).Url?
    && w.key == ref.key && w.data == ref.data && w.immutableUrls == None
    && w.url == w.cdnUrl == Some(sign(Item(ref.key, None)).url)
    && w.variants.Keys == ref.variants.Keys
    && (forall k | k in ref.variants :: VariantAs(ref.variants[k], w.variants[k], sign(Item(ref.key, Some(k)))))
    && w.displayUrl == if DisplayJpeg in ref.variants then w.variants[DisplayJpeg].url else w.url
  }

  predicate VariantAs(v: Variant, w: Variant, answer: Answer) {
    answer.Url? && w.data == v.data && w.url == w.cdnUrl == Some(answer.url)
  }

  /** A reference is signed exactly when the signer has a URL for everything it needs signed; else the
      foremost item it has none for is named, with the signer's reason. */
  lemma SignRefIs(ref: Ref, sign: Item -> Answer)
    ensures SignRef(ref, sign).Ok? <==> forall item | Needs(ref, item) :: sign(item).Url?
    ensures SignRef(ref, sign).Ok? ==> SignedAs(ref, SignRef(ref, sign).value, sign)
    ensures SignRef(ref, sign).Err? ==> exists item | Needs(ref, item) ::
      && sign(item).Refused? && SignRef(ref, sign).error == Unsigned(item, sign(item).why)
      && forall other | Needs(ref, other) && Place(other.variant) < Place(item.variant) :: sign(other).Url?
  {
    ItemsAre(ref);
    RefusedIs(Items(ref), sign);
    hide Items, FirstRefused, Place, Needs;
    if SignRef(ref, sign).Ok? {
      assert Needs(ref, Item(ref.key, None)) by { NeedsOwn(ref); }
      forall k | k in ref.variants
        ensures sign(Item(ref.key, Some(k))).Url?
      {
        NeedsOwn(ref);
      }
    }
  }

  lemma NeedsOwn(ref: Ref)
    ensures Needs(ref, Item(ref.key, None))
    ensures forall k | k in ref.variants :: Needs(ref, Item(ref.key, Some(k)))
  {
  }

  /** A reference's items: what it needs signed, each in its place. */
  lemma ItemsAre(ref: Ref)
    ensures forall item :: item in Items(ref) <==> Needs(ref, item)
    ensures forall j, k | 0 <= j < k < |Items(ref)| :: Place(Items(ref)[j].variant) < Place(Items(ref)[k].variant)
  {
    KindsAre(ref);
    KindsInPlace(ref);
    hide Kinds, Place;
    var kinds := Kinds(ref);
    assert |Items(ref)| == |kinds| + 1 && Items(ref)[0] == Item(ref.key, None);
    assert forall k | 0 <= k < |kinds| :: Items(ref)[k + 1] == Item(ref.key, Some(kinds[k]));
    forall item | Needs(ref, item)
      ensures item in Items(ref)
    {
      if item.variant.Some? {
        var k :| 0 <= k < |kinds| && kinds[k] == item.variant.value;
        assert Items(ref)[k + 1] == item;
      } else {
        assert Items(ref)[0] == item;
      }
    }
    forall item | item in Items(ref)
      ensures Needs(ref, item)
    {
      var k :| 0 <= k < |Items(ref)| && Items(ref)[k] == item;
      if k > 0 { assert item == Item(ref.key, Some(kinds[k - 1])) && kinds[k - 1] in kinds; }
    }
    assert Place(None) == 0 by { PlaceOf(Thumb); }
    forall j, k | 0 <= j < k < |Items(ref)|
      ensures Place(Items(ref)[j].variant) < Place(Items(ref)[k].variant)
    {
      PlaceOf(kinds[k - 1]);
      assert Items(ref)[(k - 1) + 1].variant == Some(kinds[k - 1]);
      if j > 0 { assert Items(ref)[(j - 1) + 1].variant == Some(kinds[j - 1]); }
    }
  }

  lemma PlaceOf(k: Kind)
    ensures Place(None) == 0 < Place(Some(k))
  {
  }

  lemma KindsInPlace(ref: Ref)
    ensures forall j, k | 0 <= j < k < |Kinds(ref)| :: Place(Some(Kinds(ref)[j])) < Place(Some(Kinds(ref)[k]))
  {
    SignableInPlace();
    HavingInPlace(SIGNABLE, ref);
    hide Place, Having;
  }

  lemma SignableInPlace()
    ensures forall j, k | 0 <= j < k < |SIGNABLE| :: Place(Some(SIGNABLE[j])) < Place(Some(SIGNABLE[k]))
  {
    assert SIGNABLE[0] == Thumb && SIGNABLE[1] == Medium && SIGNABLE[2] == Large && SIGNABLE[3] == DisplayJpeg && |SIGNABLE| == 4;
    forall j | 0 <= j < 4
      ensures Place(Some(SIGNABLE[j])) == j + 1
    {
    }
  }

  lemma {:induction false} HavingInPlace(kinds: seq<Kind>, ref: Ref)
    requires forall j, k | 0 <= j < k < |kinds| :: Place(Some(kinds[j])) < Place(Some(kinds[k]))
    ensures forall k | k in Having(kinds, ref) :: k in kinds
    ensures forall j, k | 0 <= j < k < |Having(kinds, ref)| :: Place(Some(Having(kinds, ref)[j])) < Place(Some(Having(kinds, ref)[k]))
  {
    hide Place;
    if kinds != [] {
      HavingInPlace(kinds[1..], ref);
      var rest := Having(kinds[1..], ref);
      if kinds[0] in ref.variants {
        assert Having(kinds, ref) == [kinds[0]] + rest;
        forall j, k | 0 <= j < k < |rest| + 1
          ensures Place(Some(([kinds[0]] + rest)[j])) < Place(Some(([kinds[0]] + rest)[k]))
        {
          assert ([kinds[0]] + rest)[k] == rest[k - 1] && rest[k - 1] in kinds[1..];
          var i :| 0 <= i < |kinds[1..]| && kinds[1..][i] == rest[k - 1];
          assert kinds[i + 1] == rest[k - 1];
          if j > 0 { assert ([kinds[0]] + rest)[j] == rest[j - 1]; }
        }
      } else {
        assert Having(kinds, ref) == rest;
      }
    }
  }

  lemma {:induction false} RefusedIs(items: seq<Item>, sign: Item -> Answer)
    ensures FirstRefused(items, sign).None? <==> forall item | item in items :: sign(item).Url?
    ensures FirstRefused(items, sign).Some? ==> exists k | 0 <= k < |items| ::
      && sign(items[k]).Refused? && FirstRefused(items, sign) == Some(Unsigned(items[k], sign(items[k]).why))
      && forall j | 0 <= j < k :: sign(items[j]).Url?
  {
    if items != [] && sign(items[0]).Url? {
      RefusedIs(items[1..], sign);
      assert items == [items[0]] + items[1..];
      if FirstRefused(items, sign).Some? {
        var k :| 0 <= k < |items[1..]| && sign(items[1..][k]).Refused?
          && FirstRefused(items[1..], sign) == Some(Unsigned(items[1..][k], sign(items[1..][k]).why))
          && forall j | 0 <= j < k :: sign(items[1..][j]).Url?;
        assert items[k + 1] == items[1..][k];
        assert forall j | 0 < j < k + 1 :: items[j] == items[1..][j - 1];
      }
    }
  }

  /** Every reference signed on its own, up to the first that cannot be. */
  function SignEach(refs: seq<Ref>, sign: Item -> Answer): Result<seq<Ref>>
    decreases |refs|
  {
    if refs == [] then Ok([])
    else
      var rest := SignEach(refs[..|refs| - 1], sign);
      if rest.Err? then rest
      else
        var last := SignRef(refs[|refs| - 1], sign);
        if last.Err? then Err(last.error) else Ok(rest.value + [last.value])
  }

  /** The signer answers a batch item by item. */
  ghost predicate Pointwise(signMany: Signer, sign: Item -> Answer) {
    forall items: seq<Item> {:trigger signMany(items)} :: signMany(items) == Replied(Mapped(items, sign))
  }

  function Mapped(items: seq<Item>, sign: Item -> Answer): (r: seq<Answer>)
    ensures |r| == |items|
  {
    seq(|items|, k requires 0 <= k < |items| => sign(items[k]))
  }

  // ---------------------------------------------------------------- lists of items

  function AllItems(refs: seq<Ref>): seq<Item>
    decreases |refs|
  {
    if refs == [] then [] else AllItems(refs[..|refs| - 1]) + Items(refs[|refs| - 1])
  }

  lemma {:induction false} ItemsSplit(refs: seq<Ref>, i: nat)
    requires i < |refs|
    ensures AllItems(refs[..i]) + Items(refs[i]) <= AllItems(refs)
    decreases |refs|
  {
    var n := |refs| - 1;
    assert refs[..n][..i] == refs[..i];
    if i < n { ItemsSplit(refs[..n], i); }
  }

  lemma {:induction false} RefusedConcat(a: seq<Item>, b: seq<Item>, sign: Item -> Answer)
    ensures FirstRefused(a + b, sign) == if FirstRefused(a, sign).Some? then FirstRefused(a, sign) else FirstRefused(b, sign)
  {
    if a == [] {
      assert a + b == b;
    } else {
      RefusedConcat(a[1..], b, sign);
      assert (a + b)[1..] == a[1..] + b;
    }
  }

  /** Signing one by one fails exactly at the first refused item of the whole list. */
  lemma {:induction false} EachFails(refs: seq<Ref>, sign: Item -> Answer)
    ensures var refused := FirstRefused(AllItems(refs), sign);
      if refused.Some? then SignEach(refs, sign) == Err(refused.value) else SignEach(refs, sign).Ok?
    decreases |refs|
  {
    if refs != [] {
      var n := |refs| - 1;
      EachFails(refs[..n], sign);
      RefusedConcat(AllItems(refs[..n]), Items(refs[n]), sign);
    }
  }

  // ---------------------------------------------------------------- batches

  function Chunks(items: seq<Item>): seq<seq<Item>>
    decreases |items|
  {
    if items == [] then []
    else
      var n := if |items| < BATCH then |items| else BATCH;
      [items[..n]] + Chunks(items[n..])
  }

  /** The batches are the list cut up, in order: none empty, none of more than 1000 items, and all but
      the last of exactly 1000. */
  lemma {:induction false} ChunksAre(items: seq<Item>)
    ensures Flattened(Chunks(items)) == items
    ensures forall k | 0 <= k < |Chunks(items)| :: 0 < |Chunks(items)[k]| <= 1000
    ensures forall k | 0 <= k < |Chunks(items)| - 1 :: |Chunks(items)[k]| == 1000
    decreases |items|
  {
    if items != [] {
      var n := if |items| < BATCH then |items| else BATCH;
      var rest := Chunks(items[n..]);
      ChunksAre(items[n..]);
      assert Chunks(items) == [items[..n]] + rest && ([items[..n]] + rest)[1..] == rest;
      assert items == items[..n] + items[n..];
      assert forall k | 0 < k < |rest| + 1 :: ([items[..n]] + rest)[k] == rest[k - 1];
      assert rest != [] ==> n == BATCH;
    }
  }

  function Flattened(chunks: seq<seq<Item>>): seq<Item> {
    if chunks == [] then [] else chunks[0] + Flattened(chunks[1..])
  }

  /** One batch's part in the whole: its answers, a rejection, or the complaint about their number. */
  function Answered(chunk: seq<Item>, signMany: Signer): Result<seq<Answer>> {
    var reply := signMany(chunk);
    if reply.Refuses? then Err(Rejected(reply.why))
    else if |reply.answers| != |chunk| then Err(WrongCount(|reply.answers|, |chunk|))
    else Ok(reply.answers)
  }

  function Joined(chunks: seq<seq<Item>>, signMany: Signer): seq<Answer> {
    if chunks == [] then []
    else
      var first := Answered(chunks[0], signMany);
      (if first.Ok? then first.value else []) + Joined(chunks[1..], signMany)
  }

  /** An order in which the batches' promises settle: each of them once. */
  predicate Order(arrives: seq<nat>, n: nat) {
    && (forall j | 0 <= j < |arrives| :: arrives[j] < n)
    && (forall j, k | 0 <= j < k < |arrives| :: arrives[j] != arrives[k])
    && (forall c | 0 <= c < n :: c in arrives)
  }

  /** The first failure to arrive, which is the one the caller gets to see. */
  function FirstFailure(chunks: seq<seq<Item>>, signMany: Signer, arrives: seq<nat>): Option<Error>
    requires forall j | 0 <= j < |arrives| :: arrives[j] < |chunks|
  {
    if arrives == [] then None
    else
      var first := Answered(chunks[arrives[0]], signMany);
      if first.Err? then Some(first.error) else FirstFailure(chunks, signMany, arrives[1..])
  }

  /** The answers of all batches put back together in the order of the list, or the first failure. */
  function Batches(items: seq<Item>, signMany: Signer, arrives: seq<nat>): Result<seq<Answer>>
    requires Order(arrives, |Chunks(items)|)
  {
    var failure := FirstFailure(Chunks(items), signMany, arrives);
    if failure.Some? then Err(failure.value) else Ok(Joined(Chunks(items), signMany))
  }

  lemma {:induction false} FailureIs(chunks: seq<seq<Item>>, signMany: Signer, arrives: seq<nat>)
    requires forall j | 0 <= j < |arrives| :: arrives[j] < |chunks|
    ensures FirstFailure(chunks, signMany, arrives).None? <==> forall c | c in arrives :: Answered(chunks[c], signMany).Ok?
  {
    hide Answered;
    if arrives != [] {
      FailureIs(chunks, signMany, arrives[1..]);
      assert arrives == [arrives[0]] + arrives[1..];
    }
  }

  /** A batch's call fails: the signer refuses it, or answers another number of items than asked. */
  predicate FailsWith(chunk: seq<Item>, signMany: Signer, error: Error) {
    match signMany(chunk)
    case Refuses(why) => error == Rejected(why)
    case Replied(answers) => |answers| != |chunk| && error == WrongCount(|answers|, |chunk|)
  }

  lemma FailsExactly(chunk: seq<Item>, signMany: Signer, error: Error)
    ensures FailsWith(chunk, signMany, error) <==> Answered(chunk, signMany) == Err(error)
  {
  }

  /** Whether the batches fail does not depend on the order they settle in: they do when one of
      them does. Which failure is reported does, and it may be that of any failing batch. */
  lemma AnyFailure(items: seq<Item>, signMany: Signer, arrives: seq<nat>, c: nat, error: Error) returns (other: seq<nat>)
    requires Order(arrives, |Chunks(items)|) && c < |Chunks(items)|
    ensures Batches(items, signMany, arrives).Ok? <==> forall k, e | 0 <= k < |Chunks(items)| :: !FailsWith(Chunks(items)[k], signMany, e)
    ensures Order(other, |Chunks(items)|)
    ensures FailsWith(Chunks(items)[c], signMany, error) ==> Batches(items, signMany, other) == Err(error)
  {
    forall k, e | 0 <= k < |Chunks(items)|
      ensures FailsWith(Chunks(items)[k], signMany, e) <==> Answered(Chunks(items)[k], signMany) == Err(e)
    {
      FailsExactly(Chunks(items)[k], signMany, e);
    }
    hide Answered, Joined, Chunks, FailsWith;
    FailureIs(Chunks(items), signMany, arrives);
    other := Foremost(c, |Chunks(items)|);
    if k :| 0 <= k < |Chunks(items)| && Answered(Chunks(items)[k], signMany).Err? {
      assert FailsWith(Chunks(items)[k], signMany, Answered(Chunks(items)[k], signMany).error);
    }
  }

  /** An order that starts with `c`. */
  lemma Foremost(c: nat, n: nat) returns (order: seq<nat>)
    requires c < n
    ensures Order(order, n) && order != [] && order[0] == c
  {
    order := seq(n, j requires 0 <= j < n => if j == 0 then c else if j <= c then j - 1 else j);
    forall k | 0 <= k < n
      ensures k in order
    {
      assert order[if k == c then 0 else if k < c then k + 1 else k] == k;
    }
  }

  lemma {:induction false} JoinedCount(items: seq<Item>, signMany: Signer)
    requires forall k | 0 <= k < |Chunks(items)| :: Answered(Chunks(items)[k], signMany).Ok?
    ensures |Joined(Chunks(items), signMany)| == |items|
    decreases |items|
  {
    if items != [] {
      var n := if |items| < BATCH then |items| else BATCH;
      var rest := Chunks(items[n..]);
      assert Chunks(items)[0] == items[..n] && Chunks(items)[1..] == rest;
      assert forall k | 0 <= k < |rest| :: rest[k] == Chunks(items)[k + 1];
      JoinedCount(items[n..], signMany);
    }
  }

  lemma BatchesCount(items: seq<Item>, signMany: Signer, arrives: seq<nat>)
    requires Order(arrives, |Chunks(items)|)
    ensures Batches(items, signMany, arrives).Ok? ==> |Batches(items, signMany, arrives).value| == |items|
  {
    hide Answered, Joined, Chunks;
    FailureIs(Chunks(items), signMany, arrives);
    if Batches(items, signMany, arrives).Ok? { JoinedCount(items, signMany); }
  }

  lemma PointwiseAnswered(chunk: seq<Item>, signMany: Signer, sign: Item -> Answer)
    requires Pointwise(signMany, sign)
    ensures Answered(chunk, signMany) == Ok(Mapped(chunk, sign))
  {
    hide Mapped;
  }

  lemma {:induction false} JoinedPointwise(items: seq<Item>, signMany: Signer, sign: Item -> Answer)
    requires Pointwise(signMany, sign)
    ensures Joined(Chunks(items), signMany) == Mapped(items, sign)
    decreases |items|
  {
    hide Answered, Pointwise;
    if items != [] {
      var n := if |items| < BATCH then |items| else BATCH;
      assert Chunks(items)[0] == items[..n] && Chunks(items)[1..] == Chunks(items[n..]);
      PointwiseAnswered(items[..n], signMany, sign);
      JoinedPointwise(items[n..], signMany, sign);
      MappedSplit(items, n, sign);
    }
  }

  lemma MappedSplit(items: seq<Item>, n: nat, sign: Item -> Answer)
    requires n <= |items|
    ensures Mapped(items[..n], sign) + Mapped(items[n..], sign) == Mapped(items, sign)
  {
  }

  /** Cutting the list into batches changes no answer, whatever order they settle in. */
  lemma BatchesPointwise(items: seq<Item>, signMany: Signer, arrives: seq<nat>, sign: Item -> Answer)
    requires Pointwise(signMany, sign) && Order(arrives, |Chunks(items)|)
    ensures Batches(items, signMany, arrives) == Ok(Mapped(items, sign))
  {
    hide Answered, Joined, Chunks, Mapped, Pointwise;
    FailureIs(Chunks(items), signMany, arrives);
    forall k | 0 <= k < |Chunks(items)|
      ensures Answered(Chunks(items)[k], signMany).Ok?
    {
      PointwiseAnswered(Chunks(items)[k], signMany, sign);
    }
    JoinedPointwise(items, signMany, sign);
  }

  /** The list in chunks of at most 1000. */
  method Cut(items: seq<Item>) returns (chunks: seq<seq<Item>>)
    ensures chunks == Chunks(items)
  {
    chunks := [];
    var i := 0;
    assert items[0..] == items;
    while i < |items|
      invariant 0 <= i <= |items| && chunks + Chunks(items[i..]) == Chunks(items)
    {
      var end := if i + BATCH < |items| then i + BATCH else |items|;
      assert items[i..][..end - i] == items[i..end] && items[i..][end - i..] == items[end..];
      Regroup(chunks, [items[i..end]], Chunks(items[end..]));
      chunks := chunks + [items[i..end]];
      i := end;
    }
    assert chunks + [] == chunks;
  }

  lemma {:induction false} FailureAt(chunks: seq<seq<Item>>, signMany: Signer, arrives: seq<nat>, j: nat)
    requires forall k | 0 <= k < |arrives| :: arrives[k] < |chunks|
    requires j < |arrives| && Answered(chunks[arrives[j]], signMany).Err?
    requires forall k | 0 <= k < j :: Answered(chunks[arrives[k]], signMany).Ok?
    ensures FirstFailure(chunks, signMany, arrives) == Some(Answered(chunks[arrives[j]], signMany).error)
  {
    hide Answered;
    if j > 0 { FailureAt(chunks, signMany, arrives[1..], j - 1); }
  }

  /** All batches at once, their replies coming in in the order `arrives`. */
  method SignBatches(items: seq<Item>, signMany: Signer, arrives: seq<nat>) returns (r: Result<seq<Answer>>)
    requires Order(arrives, |Chunks(items)|)
    ensures r == Batches(items, signMany, arrives)
  {
    hide Answered, Joined, Chunks, FirstFailure;
    var chunks := Cut(items);
    var replies: seq<seq<Answer>> := seq(|chunks|, _ => []);
    for j := 0 to |arrives|
      invariant |replies| == |chunks|
      invariant forall k | 0 <= k < j :: Answered(chunks[arrives[k]], signMany) == Ok(replies[arrives[k]])
    {
      var reply := Answered(chunks[arrives[j]], signMany);
      if reply.Err? {
        FailureAt(chunks, signMany, arrives, j);
        return Err(reply.error);
      }
      replies := replies[arrives[j] := reply.value];
    }
    forall c | 0 <= c < |chunks|
      ensures Answered(chunks[c], signMany) == Ok(replies[c])
    {
      assert c in arrives;
    }
    FailureIs(chunks, signMany, arrives);
    var answers := Flat(chunks, signMany, replies);
    r := Ok(answers);
  }

  method Flat(chunks: seq<seq<Item>>, signMany: Signer, replies: seq<seq<Answer>>) returns (answers: seq<Answer>)
    requires |replies| == |chunks| && forall c | 0 <= c < |chunks| :: Answered(chunks[c], signMany) == Ok(replies[c])
    ensures answers == Joined(chunks, signMany)
  {
    hide Answered;
    answers := [];
    assert chunks[0..] == chunks;
    for c := 0 to |chunks|
      invariant answers + Joined(chunks[c..], signMany) == Joined(chunks, signMany)
    {
      assert chunks[c..][0] == chunks[c] && chunks[c..][1..] == chunks[c + 1..];
      Regroup(answers, replies[c], Joined(chunks[c + 1..], signMany));
      answers := answers + replies[c];
    }
    assert answers + [] == answers;
  }

  // ---------------------------------------------------------------- handing out

  function Signed(v: Variant, url: string): Variant {
    v.(url := Some(url), cdnUrl := Some(url))
  }

  /** The first `n` variants with their URLs, the one for the original being at `start`. */
  function FirstSigned(ref: Ref, kinds: seq<Kind>, urls: seq<string>, start: nat, n: nat): map<Kind, Variant>
    requires n <= |kinds| && start + |kinds| < |urls| && forall k: Kind :: k in kinds ==> k in ref.variants
  {
    if n == 0 then map[]
    else FirstSigned(ref, kinds, urls, start, n - 1)[kinds[n - 1] := Signed(ref.variants[kinds[n - 1]], urls[start + n])]
  }

  /** `ref` with the given URLs: the first for the original, then one for each variant in order. */
  function Fill(ref: Ref, urls: seq<string>): Ref
    requires |urls| == |Items(ref)|
  {
    Complete(ref, urls[0], Variants(ref, urls))
  }

  function Variants(ref: Ref, urls: seq<string>): map<Kind, Variant>
    requires |urls| == 1 + |Kinds(ref)|
  {
    KindsAre(ref);
    FirstSigned(ref, Kinds(ref), urls, 0, |Kinds(ref)|)
  }

  function Complete(ref: Ref, original: string, variants: map<Kind, Variant>): Ref {
    ref.(url := Some(original), cdnUrl := Some(original), immutableUrls := None, variants := variants,
         displayUrl := if DisplayJpeg in variants then variants[DisplayJpeg].cdnUrl else Some(original))
  }

  /** Each reference with its own share of the URLs, in order. */
  function Share(refs: seq<Ref>, urls: seq<string>): seq<Ref>
    requires |urls| == |AllItems(refs)|
    decreases |refs|
  {
    if refs == [] then []
    else
      var n := |refs| - 1;
      var m := |AllItems(refs[..n])|;
      Share(refs[..n], urls[..m]) + [Fill(refs[n], urls[m..])]
  }

  lemma {:induction false} HavingIs(kinds: seq<Kind>, ref: Ref)
    requires forall j, k | 0 <= j < k < |kinds| :: kinds[j] != kinds[k]
    ensures var have := Having(kinds, ref);
      && (forall k: Kind :: k in have <==> k in kinds && k in ref.variants)
      && (forall j, k | 0 <= j < k < |have| :: have[j] != have[k])
  {
    if kinds != [] {
      HavingIs(kinds[1..], ref);
      assert kinds[0] !in kinds[1..];
      assert kinds == [kinds[0]] + kinds[1..];
    }
  }

  lemma KindsAre(ref: Ref)
    ensures forall k: Kind :: k in Kinds(ref) <==> k in ref.variants
    ensures forall j, k | 0 <= j < k < |Kinds(ref)| :: Kinds(ref)[j] != Kinds(ref)[k]
  {
    HavingIs(SIGNABLE, ref);
    forall k: Kind
      ensures k in SIGNABLE
    {
      match k
      case Thumb => assert SIGNABLE[0] == k;
      case Medium => assert SIGNABLE[1] == k;
      case Large => assert SIGNABLE[2] == k;
      case DisplayJpeg => assert SIGNABLE[3] == k;
    }
  }

  lemma {:induction false} SignedShift(ref: Ref, kinds: seq<Kind>, urls: seq<string>, start: nat, next: nat, n: nat)
    requires n <= |kinds| && next == start + 1 + |kinds| <= |urls| && forall k: Kind :: k in kinds ==> k in ref.variants
    ensures FirstSigned(ref, kinds, urls, start, n) == FirstSigned(ref, kinds, urls[start..next], 0, n)
  {
    hide Signed;
    if n > 0 { SignedShift(ref, kinds, urls, start, next, n - 1); }
  }

  method SignVariants(ref: Ref, kinds: seq<Kind>, urls: seq<string>, start: nat) returns (variants: map<Kind, Variant>, next: nat)
    requires start + |kinds| < |urls| && forall k: Kind :: k in kinds ==> k in ref.variants
    ensures next == start + 1 + |kinds| && variants == FirstSigned(ref, kinds, urls, start, |kinds|)
  {
    hide Signed;
    next, variants := start + 1, map[];
    for i := 0 to |kinds|
      invariant next == start + 1 + i && variants == FirstSigned(ref, kinds, urls, start, i)
    {
      var url := urls[next];
      next := next + 1;
      variants := variants[kinds[i] := Signed(ref.variants[kinds[i]], url)];
    }
  }

  method FillIn(ref: Ref, urls: seq<string>, start: nat) returns (out: Ref, next: nat)
    requires start + |Items(ref)| <= |urls|
    ensures next == start + |Items(ref)| && out == Fill(ref, urls[start..next])
  {
    hide Kinds, FirstSigned;
    var original := urls[start];
    KindsAre(ref);
    var variants;
    variants, next := SignVariants(ref, Kinds(ref), urls, start);
    SignedShift(ref, Kinds(ref), urls, start, next, |Kinds(ref)|);
    var display := if DisplayJpeg in variants then variants[DisplayJpeg].cdnUrl else Some(original);
    var all := if Kinds(ref) != [] then variants else ref.variants;
    if Kinds(ref) == [] { NoneSigned(ref, urls[start..next]); }
    out := ref.(url := Some(original), cdnUrl := Some(original), displayUrl := display, immutableUrls := None, variants := all);
  }

  lemma NoneSigned(ref: Ref, urls: seq<string>)
    requires Kinds(ref) == [] && |urls| == 1
    ensures Variants(ref, urls) == ref.variants
  {
    KindsAre(ref);
    hide Kinds;
    assert forall k: Kind :: k !in ref.variants;
    assert ref.variants == map[];
  }

  /** The running cursor gives each reference and each variant its own URL, and uses up the list. */
  method HandOut(refs: seq<Ref>, urls: seq<string>) returns (out: seq<Ref>, next: nat)
    requires |urls| == |AllItems(refs)|
    ensures next == |urls| && out == Share(refs, urls)
  {
    next, out := 0, [];
    for i := 0 to |refs|
      invariant next == |AllItems(refs[..i])| <= |urls| && out == Share(refs[..i], urls[..next])
    {
      ItemsSplit(refs, i);
      hide Fill, Items;
      assert refs[..i + 1][..i] == refs[..i];
      ghost var m := next;
      var ref;
      ref, next := FillIn(refs[i], urls, next);
      assert urls[..next][..m] == urls[..m] && urls[..next][m..] == urls[m..next];
      out := out + [ref];
    }
    assert refs[..|refs|] == refs && urls[..|urls|] == urls;
  }

  lemma {:induction false} NoneRefused(items: seq<Item>, sign: Item -> Answer)
    requires forall k | 0 <= k < |items| :: sign(items[k]).Url?
    ensures FirstRefused(items, sign).None?
  {
    if items != [] {
      NoneRefused(items[1..], sign);
    }
  }

  predicate Answers(items: seq<Item>, urls: seq<string>, sign: Item -> Answer) {
    |urls| == |items| && forall k | 0 <= k < |urls| :: sign(items[k]) == Url(urls[k])
  }

  /** The variants of these kinds, each with the signer's answer for its own item. */
  function SignedBy(ref: Ref, kinds: seq<Kind>, sign: Item -> Answer): map<Kind, Variant>
    requires forall k: Kind :: k in kinds ==> k in ref.variants
  {
    map k: Kind | k in kinds :: Signed(ref.variants[k], UrlOf(sign(Item(ref.key, Some(k)))))
  }

  lemma SignedBySnoc(ref: Ref, kinds: seq<Kind>, last: Kind, sign: Item -> Answer)
    requires (forall k: Kind :: k in kinds ==> k in ref.variants) && last in ref.variants
    ensures SignedBy(ref, kinds + [last], sign) == SignedBy(ref, kinds, sign)[last := Signed(ref.variants[last], UrlOf(sign(Item(ref.key, Some(last)))))]
  {
    hide Signed, UrlOf;
  }

  /** The URLs as handed out are the signer's answers for their own items. */
  lemma {:induction false} VariantsSign(ref: Ref, kinds: seq<Kind>, urls: seq<string>, sign: Item -> Answer, n: nat)
    requires n <= |kinds| && (forall k: Kind :: k in kinds ==> k in ref.variants) && Answers(ItemsFor(ref.key, kinds), urls, sign)
    ensures FirstSigned(ref, kinds, urls, 0, n) == SignedBy(ref, kinds[..n], sign)
  {
    hide Signed, SignedBy, ItemsFor;
    if n > 0 {
      VariantsSign(ref, kinds, urls, sign, n - 1);
      assert kinds[..n] == kinds[..n - 1] + [kinds[n - 1]];
      SignedBySnoc(ref, kinds[..n - 1], kinds[n - 1], sign);
      VariantItem(ref.key, kinds, n);
    } else {
      SignedByNone(ref, kinds, sign);
    }
  }

  lemma SignedByNone(ref: Ref, kinds: seq<Kind>, sign: Item -> Answer)
    ensures SignedBy(ref, kinds[..0], sign) == map[]
  {
  }

  lemma VariantItem(key: string, kinds: seq<Kind>, n: nat)
    requires 0 < n <= |kinds|
    ensures |ItemsFor(key, kinds)| == 1 + |kinds| && ItemsFor(key, kinds)[n] == Item(key, Some(kinds[n - 1]))
  {
  }

  lemma FillSigns(ref: Ref, urls: seq<string>, sign: Item -> Answer)
    requires Answers(Items(ref), urls, sign)
    ensures SignRef(ref, sign) == Ok(Fill(ref, urls))
  {
    hide Kinds, FirstSigned, FirstRefused;
    KindsAre(ref);
    NoneRefused(Items(ref), sign);
    var kinds := Kinds(ref);
    VariantsSign(ref, kinds, urls, sign, |kinds|);
    assert kinds[..|kinds|] == kinds;
    assert Items(ref)[0] == Item(ref.key, None);
    assert sign(Items(ref)[0]) == Url(urls[0]);
    assert Variants(ref, urls) == SignRef(ref, sign).value.variants;
  }

  lemma {:induction false} ShareSigns(refs: seq<Ref>, urls: seq<string>, sign: Item -> Answer)
    requires Answers(AllItems(refs), urls, sign)
    ensures SignEach(refs, sign) == Ok(Share(refs, urls))
    decreases |refs|
  {
    hide Fill, Items, SignRef;
    if refs != [] {
      var n := |refs| - 1;
      var m := |AllItems(refs[..n])|;
      AnswersSplit(AllItems(refs[..n]), Items(refs[n]), urls, sign);
      ShareSigns(refs[..n], urls[..m], sign);
      FillSigns(refs[n], urls[m..], sign);
    }
  }

  lemma AnswersSplit(a: seq<Item>, b: seq<Item>, urls: seq<string>, sign: Item -> Answer)
    requires Answers(a + b, urls, sign)
    ensures Answers(a, urls[..|a|], sign) && Answers(b, urls[|a|..], sign)
  {
    forall k | 0 <= k < |b|
      ensures sign(b[k]) == Url(urls[|a|..][k])
    {
      assert b[k] == (a + b)[|a| + k];
    }
    forall k | 0 <= k < |a|
      ensures sign(a[k]) == Url(urls[..|a|][k])
    {
      assert a[k] == (a + b)[k];
    }
  }

  // ---------------------------------------------------------------- the whole call

  method Flatten(refs: seq<Ref>) returns (items: seq<Item>)
    ensures items == AllItems(refs)
  {
    items := [];
    for i := 0 to |refs|
      invariant items == AllItems(refs[..i])
    {
      assert refs[..i + 1][..i] == refs[..i];
      items := items + Items(refs[i]);
    }
    assert refs[..|refs|] == refs;
  }

  method Plan(given: seq<Given>) returns (r: Result<seq<Ref>>)
    ensures r.Err? <==> exists k | 0 <= k < |given| :: !WellFormed(given[k])
    ensures r.Err? ==> r.error == BadRef
    ensures r.Ok? ==> |r.value| == |given| && forall k | 0 <= k < |given| :: given[k] == Asset(r.value[k])
  {
    var refs: seq<Ref> := [];
    for i := 0 to |given|
      invariant |refs| == i && forall k | 0 <= k < i :: given[k] == Asset(refs[k]) && WellFormed(given[k])
    {
      if !WellFormed(given[i]) { return Err(BadRef); }
      refs := refs + [given[i].ref];
    }
    r := Ok(refs);
  }

  /** The URLs, or the first item the signer could not sign. */
  method Urls(items: seq<Item>, answers: seq<Answer>) returns (r: Result<seq<string>>)
    requires |answers| == |items|
    ensures r.Ok? ==> |r.value| == |items| && forall k | 0 <= k < |items| :: answers[k] == Url(r.value[k])
    ensures r.Err? ==> exists i | 0 <= i < |items| ::
      answers[i].Refused? && r.error == Unsigned(items[i], answers[i].why) && forall k | 0 <= k < i :: answers[k].Url?
  {
    var urls := [];
    for i := 0 to |answers|
      invariant |urls| == i && forall k | 0 <= k < i :: answers[k] == Url(urls[k])
    {
      if answers[i].Refused? { return Err(Unsigned(items[i], answers[i].why)); }
      urls := urls + [answers[i].url];
    }
    r := Ok(urls);
  }

  lemma {:induction false} RefusedAt(items: seq<Item>, sign: Item -> Answer, i: nat)
    requires i < |items| && sign(items[i]).Refused? && forall k | 0 <= k < i :: sign(items[k]).Url?
    ensures FirstRefused(items, sign) == Some(Unsigned(items[i], sign(items[i]).why))
  {
    if i > 0 {
      RefusedAt(items[1..], sign, i - 1);
    }
  }

  /** Whatever the batches are, an order in which their promises settle. */
  ghost predicate Settles(arrives: seq<seq<Item>> -> seq<nat>) {
    forall chunks: seq<seq<Item>> {:trigger arrives(chunks)} :: Order(arrives(chunks), |chunks|)
  }

  /** Signing in batches is signing each reference on its own, for every signer that answers item by
      item, in whatever order the batches settle; before that, anything in the list that is no
      reference stops it, and then the first batch to fail. `sign` may be any function. */
  method SignAssetRefs(given: seq<Given>, signMany: Signer, arrives: seq<seq<Item>> -> seq<nat>, ghost sign: Item -> Answer)
    returns (r: Result<seq<Ref>>, ghost refs: seq<Ref>)
    requires Settles(arrives)
    ensures (exists k | 0 <= k < |given| :: given[k] == Junk || given[k].ref.key == "") ==> r == Err(BadRef)
    ensures (forall k | 0 <= k < |given| :: given[k].Asset? && given[k].ref.key != "") ==>
      && |refs| == |given| && (forall k | 0 <= k < |given| :: given[k] == Asset(refs[k]))
      && (var order := arrives(Chunks(AllItems(refs)));
          Order(order, |Chunks(AllItems(refs))|)
          && (Batches(AllItems(refs), signMany, order).Err? ==> r == Err(Batches(AllItems(refs), signMany, order).error)))
      && (Pointwise(signMany, sign) ==> r == SignEach(refs, sign))
  {
    hide Batches, AllItems, SignEach, Items, Chunks, Order, Pointwise, Mapped;
    var plan := Plan(given);
    if plan.Err? { return Err(plan.error), []; }
    refs := plan.value;
    var items := Flatten(plan.value);
    var chunks := Cut(items);
    var order := arrives(chunks);
    var answers := SignBatches(items, signMany, order);
    BatchesCount(items, signMany, order);
    if Pointwise(signMany, sign) { BatchesPointwise(items, signMany, order, sign); }
    if answers.Err? { return Err(answers.error), refs; }
    r := Finish(plan.value, items, answers.value, sign);
    if Pointwise(signMany, sign) { MappedAt(items, sign); }
  }

  lemma MappedAt(items: seq<Item>, sign: Item -> Answer)
    ensures forall k | 0 <= k < |items| :: Mapped(items, sign)[k] == sign(items[k])
  {
  }

  /** The answers in, the signed references out. */
  method Finish(refs: seq<Ref>, items: seq<Item>, answers: seq<Answer>, ghost sign: Item -> Answer) returns (r: Result<seq<Ref>>)
    requires items == AllItems(refs) && |answers| == |items|
    ensures (forall k | 0 <= k < |items| :: answers[k] == sign(items[k])) ==> r == SignEach(refs, sign)
  {
    hide SignEach, Share;
    var urls := Urls(items, answers);
    if urls.Err? {
      if forall k | 0 <= k < |items| :: answers[k] == sign(items[k]) {
        var i :| 0 <= i < |items| && answers[i].Refused? && urls.error == Unsigned(items[i], answers[i].why) && forall k | 0 <= k < i :: answers[k].Url?;
        RefusedAt(items, sign, i);
        EachFails(refs, sign);
      }
      return Err(urls.error);
    }
    var out, _ := HandOut(refs, urls.value);
    if forall k | 0 <= k < |items| :: answers[k] == sign(items[k]) { ShareSigns(refs, urls.value, sign); }
    r := Ok(out);
  }
}
