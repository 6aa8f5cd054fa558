/**
 * The decoded YAML document of pkg/yaml/updater.go and the operations that walk and
 * change it: `getValue`, `setValue`, `updateImageTag`, the navigation loop of
 * `GetValueAtPath` and `updateValueAtPath`.
 *
 * The Go code changes maps and slices in place, and the change is seen through the
 * root because every container is shared by reference. Here the document is a value,
 * and an update returns the new document with the ancestors of the changed slot
 * rebuilt (`Put`, `Plug`).
 */
module YamlTree {
  import opened Wrappers
  import opened Strings
  import opened YamlPath

  /** What `yaml.Unmarshal` into an `interface{}` produces, for string-keyed mappings. */
  datatype Node =
    | Map(entries: map<string, Node>)
    | Seq(items: seq<Node>)
    | Str(text: string)
    | Int(number: int)
    | Bool(truth: bool)
    | Null

  /** The errors of `getValue`, `setValue` and the two path loops. */
  datatype PathError =
    | KeyNotFound(key: string)                     // key '%s' not found in map
    | InvalidIndex(key: string)                    // invalid array index '%s'
    | IndexOutOfBounds(index: int, length: nat)    // array index %d out of bounds (length: %d)
    | CannotNavigate                               // cannot navigate into non-map/non-array type
    | CannotSet                                    // cannot set value in non-map/non-array type
    | AtPart(part: string, cause: PathError)       // failed to navigate to path part '%s'

  // ---------------------------------------------------------------------------
  // strconv.Atoi
  // ---------------------------------------------------------------------------

  const Int64Min: int := -0x8000_0000_0000_0000
  const Int64Max: int := 0x7fff_ffff_ffff_ffff

  function DigitValue(c: char): nat
    requires IsDigit(c)
  {
    (c as int) - ('0' as int)
  }

  /** The value of a string of decimal digits, most significant first. */
  function DigitsValue(s: string): nat
    requires forall i :: 0 <= i < |s| ==> IsDigit(s[i])
    decreases |s|
  {
    if |s| == 0 then 0 else DigitsValue(s[..|s| - 1]) * 10 + DigitValue(s[|s| - 1])
  }

  /**
   * `strconv.Atoi`: an optional '+' or '-', then one or more ASCII digits, whose value
   * must fit in a 64-bit `int`; anything else is an error.
   */
  function Atoi(s: string): Option<int>
  {
    var signed := |s| > 0 && (s[0] == '+' || s[0] == '-');
    var digits := if signed then s[1..] else s;
    if !IsDigits(digits) then None
    else
      var magnitude: int := DigitsValue(digits);
      var value: int := if signed && s[0] == '-' then -magnitude else magnitude;
      if Int64Min <= value <= Int64Max then Some(value) else None
  }

  function DigitChar(d: nat): char
    requires d < 10
  {
    ('0' as int + d) as char
  }

  /** `strconv.Itoa` for a natural number: its shortest decimal form. */
  function DecimalString(n: nat): (s: string)
    ensures |s| > 0
    decreases n
  {
    if n < 10 then [DigitChar(n)] else DecimalString(n / 10) + [DigitChar(n % 10)]
  }

  lemma {:induction false} DecimalStringDigits(n: nat)
    ensures IsDigits(DecimalString(n))
    ensures DigitsValue(DecimalString(n)) == n
    decreases n
  {
    var s := DecimalString(n);
    if n >= 10 {
      DecimalStringDigits(n / 10);
      assert s[..|s| - 1] == DecimalString(n / 10);
      assert DigitValue(s[|s| - 1]) == n % 10;
    }
  }

  /** Atoi reads back the decimal form of every index a 64-bit int can hold. */
  lemma AtoiOfDecimal(n: nat)
    requires n <= Int64Max
    ensures Atoi(DecimalString(n)) == Some(n)
  {
    DecimalStringDigits(n);
  }

  /** Atoi accepts a leading sign: "+n" and "-n" are n and its negation. */
  lemma AtoiOfSigned(n: nat)
    requires n <= Int64Max
    ensures Atoi("+" + DecimalString(n)) == Some(n)
    ensures Atoi("-" + DecimalString(n)) == Some(-(n as int))
  {
    DecimalStringDigits(n);
    assert ("+" + DecimalString(n))[1..] == DecimalString(n);
    assert ("-" + DecimalString(n))[1..] == DecimalString(n);
  }

  /** A step that holds no digit at all is never an index. */
  lemma AtoiRejectsDigitless(s: string)
    requires forall i :: 0 <= i < |s| ==> !IsDigit(s[i])
    ensures Atoi(s).None?
  {
    if |s| > 0 && (s[0] == '+' || s[0] == '-') && |s| > 1 {
      assert s[1..][0] == s[1];
    }
  }

  // ---------------------------------------------------------------------------
  // getValue, setValue
  // ---------------------------------------------------------------------------

  /** `getValue`: the child of a mapping under `key`, or of a sequence at index `key`. */
  function GetValue(data: Node, key: string): (r: Result<Node, PathError>)
    ensures data.Map? ==> (r.Success? <==> key in data.entries)
    ensures data.Map? && r.Failure? ==> r.error == KeyNotFound(key)
    ensures data.Map? && r.Success? ==> r.value == data.entries[key]
    ensures data.Seq? && Atoi(key).None? ==> r == Failure(InvalidIndex(key))
    ensures data.Seq? && Atoi(key).Some? ==>
              (r.Success? <==> 0 <= Atoi(key).value < |data.items|)
    ensures data.Seq? && Atoi(key).Some? && r.Success? ==> r.value == data.items[Atoi(key).value]
    ensures data.Seq? && Atoi(key).Some? && r.Failure? ==>
              r.error == IndexOutOfBounds(Atoi(key).value, |data.items|)
    ensures !data.Map? && !data.Seq? ==> r == Failure(CannotNavigate)
  {
    match data
    case Map(m) =>
      if key in m then Success(m[key]) else Failure(KeyNotFound(key))
    case Seq(items) =>
      (match Atoi(key)
       case None => Failure(InvalidIndex(key))
       case Some(index) =>
         if index < 0 || index >= |items| then Failure(IndexOutOfBounds(index, |items|))
         else Success(items[index]))
    case _ => Failure(CannotNavigate)
  }

  /** Which slot of a container a key designates; keys "1", "01" and "+1" share one. */
  datatype SlotId = KeySlot(key: string) | IndexSlot(index: nat)

  function Slot(data: Node, key: string): Option<SlotId>
  {
    match data
    case Map(_) => Some(KeySlot(key))
    case Seq(items) =>
      if Atoi(key).Some? && 0 <= Atoi(key).value < |items| then Some(IndexSlot(Atoi(key).value))
      else None
    case _ => None
  }

  /** The value a slot held before it is set, if the slot existed. */
  function Prior(data: Node, key: string): Option<Node>
  {
    match GetValue(data, key)
    case Success(child) => Some(child)
    case Failure(_) => None
  }

  /** What `setValue` stores: a retagged image if asked for and the slot held a string. */
  function Stored(prior: Option<Node>, newValue: string, imageTagOnly: bool): Node
  {
    if imageTagOnly && prior.Some? && prior.value.Str? then Str(UpdateImageTag(prior.value.text, newValue))
    else Str(newValue)
  }

  /** `setValue`: store `newValue` (or the retagged image) into the slot `key` designates. */
  function SetValue(data: Node, key: string, newValue: string, imageTagOnly: bool): (r: Result<Node, PathError>)
    ensures r.Success? <==> Slot(data, key).Some?
    ensures data.Map? ==> r.Success? && r.value.Map?
    ensures data.Seq? && r.Success? ==> r.value.Seq? && |r.value.items| == |data.items|
    ensures data.Seq? && r.Failure? ==> r == Failure(if Atoi(key).None? then InvalidIndex(key)
                                                     else IndexOutOfBounds(Atoi(key).value, |data.items|))
    ensures !data.Map? && !data.Seq? ==> r == Failure(CannotSet)
  {
    match data
    case Map(m) =>
      if imageTagOnly && key in m && m[key].Str? then
        Success(Map(m[key := Str(UpdateImageTag(m[key].text, newValue))]))
      else
        Success(Map(m[key := Str(newValue)]))
    case Seq(items) =>
      (match Atoi(key)
       case None => Failure(InvalidIndex(key))
       case Some(index) =>
         if index < 0 || index >= |items| then Failure(IndexOutOfBounds(index, |items|))
         else if imageTagOnly && items[index].Str? then
           Success(Seq(items[index := Str(UpdateImageTag(items[index].text, newValue))]))
         else
           Success(Seq(items[index := Str(newValue)])))
    case _ => Failure(CannotSet)
  }

  /** Replace the child in the slot `key` designates; a key designating no slot changes nothing. */
  function Put(data: Node, key: string, child: Node): Node
  {
    match data
    case Map(m) => Map(m[key := child])
    case Seq(items) =>
      if Atoi(key).Some? && 0 <= Atoi(key).value < |items| then Seq(items[Atoi(key).value := child])
      else data
    case _ => data
  }

  /** setValue is Put of the stored value, in every slot that exists. */
  lemma SetValueIsPut(data: Node, key: string, newValue: string, imageTagOnly: bool)
    requires Slot(data, key).Some?
    ensures SetValue(data, key, newValue, imageTagOnly)
         == Success(Put(data, key, Stored(Prior(data, key), newValue, imageTagOnly)))
  {
  }

  /** Reading a slot after Put yields the new child. */
  lemma PutThenGet(data: Node, key: string, other: string, child: Node)
    requires Slot(data, key).Some? && Slot(data, other) == Slot(data, key)
    ensures GetValue(Put(data, key, child), other) == Success(child)
  {
  }

  /** Put changes no other slot, and keeps a missing slot missing with the same error. */
  lemma PutFrame(data: Node, key: string, other: string, child: Node)
    requires Slot(data, key).Some? && Slot(data, other) != Slot(data, key)
    ensures GetValue(Put(data, key, child), other) == GetValue(data, other)
  {
  }

  /** Two keys that designate one slot read the same child. */
  lemma SameSlotSameValue(data: Node, key: string, other: string)
    requires Slot(data, key).Some? && Slot(data, other) == Slot(data, key)
    ensures GetValue(data, other) == GetValue(data, key)
  {
  }

  /** After setValue succeeds, getValue at the same key yields what was stored. */
  lemma SetThenGet(data: Node, key: string, newValue: string, imageTagOnly: bool)
    requires SetValue(data, key, newValue, imageTagOnly).Success?
    ensures GetValue(SetValue(data, key, newValue, imageTagOnly).value, key)
         == Success(Stored(Prior(data, key), newValue, imageTagOnly))
    ensures !imageTagOnly ==>
              GetValue(SetValue(data, key, newValue, imageTagOnly).value, key) == Success(Str(newValue))
  {
    SetValueIsPut(data, key, newValue, imageTagOnly);
    PutThenGet(data, key, key, Stored(Prior(data, key), newValue, imageTagOnly));
  }

  // ---------------------------------------------------------------------------
  // updateImageTag
  // ---------------------------------------------------------------------------

  /** `updateImageTag`: split on ':', replace the last piece by the tag, or append ":tag". */
  function UpdateImageTag(currentImage: string, newTag: string): string
  {
    var parts := Split(currentImage, ':');
    if |parts| >= 2 then Join(parts[..|parts| - 1] + [newTag], ':')
    else currentImage + ":" + newTag
  }

  lemma LastIndexOfIs(s: string, c: char, j: nat)
    requires j < |s| && s[j] == c && c !in s[j + 1..]
    ensures LastIndexOf(s, c) == Some(j)
  {
    assert c in s;
  }

  /**
   * The image reference keeps everything up to and including its last ':' and gets
   * the new tag after it; without any ':' the tag is appended after a new ':'.
   */
  lemma UpdateImageTagSpec(currentImage: string, newTag: string)
    ensures LastIndexOf(currentImage, ':').Some? ==>
              UpdateImageTag(currentImage, newTag)
              == currentImage[..LastIndexOf(currentImage, ':').value + 1] + newTag
    ensures LastIndexOf(currentImage, ':').None? ==>
              UpdateImageTag(currentImage, newTag) == currentImage + ":" + newTag
  {
    var parts := Split(currentImage, ':');
    var n := |parts|;
    if n >= 2 {
      var front := parts[..n - 1];
      assert front + [parts[n - 1]] == parts;
      JoinSnoc(front, parts[n - 1], ':');
      JoinSnoc(front, newTag, ':');
      var j := |Join(front, ':')|;
      assert currentImage == Join(front, ':') + [':'] + parts[n - 1];
      assert currentImage[j] == ':';
      assert currentImage[j + 1..] == parts[n - 1];
      LastIndexOfIs(currentImage, ':', j);
      assert currentImage[..j + 1] == Join(front, ':') + [':'];
    } else {
      assert parts == [currentImage];
      assert ':' !in currentImage;
    }
  }

  /** With a tag free of ':', retagging twice is retagging once. */
  lemma UpdateImageTagIdempotent(currentImage: string, newTag: string)
    requires ':' !in newTag
    ensures UpdateImageTag(UpdateImageTag(currentImage, newTag), newTag) == UpdateImageTag(currentImage, newTag)
  {
    var once := UpdateImageTag(currentImage, newTag);
    UpdateImageTagSpec(currentImage, newTag);
    UpdateImageTagSpec(once, newTag);
    var j := if LastIndexOf(currentImage, ':').Some? then LastIndexOf(currentImage, ':').value
             else |currentImage|;
    assert once == once[..j + 1] + newTag;
    assert once[j] == ':';
    assert once[j + 1..] == newTag;
    LastIndexOfIs(once, ':', j);
  }

  /** A registry port is taken for a tag when the reference has none: "host:5000/app" keeps only "host:". */
  lemma UpdateImageTagRegistryPort(host: string, port: string, image: string, newTag: string)
    requires ':' !in host && ':' !in port + "/" + image
    ensures UpdateImageTag(host + ":" + port + "/" + image, newTag) == host + ":" + newTag
  {
    var s := host + ":" + port + "/" + image;
    assert s == host + ":" + (port + "/" + image);
    assert s[|host|] == ':';
    assert s[|host| + 1..] == port + "/" + image;
    LastIndexOfIs(s, ':', |host|);
    UpdateImageTagSpec(s, newTag);
    assert s[..|host| + 1] == host + ":";
  }

  // ---------------------------------------------------------------------------
  // Walking a path
  // ---------------------------------------------------------------------------

  /**
   * Following the steps with getValue from `data`, as the loop of `GetValueAtPath`
   * does; a failing step is reported with the step that failed.
   */
  function Navigate(data: Node, parts: seq<string>): Result<Node, PathError>
    decreases |parts|
  {
    if |parts| == 0 then Success(data)
    else
      match GetValue(data, parts[0])
      case Failure(e) => Failure(AtPart(parts[0], e))
      case Success(child) => Navigate(child, parts[1..])
  }

  /** The node a path leads to, if the walk succeeds. */
  function Reached(data: Node, parts: seq<string>): Option<Node>
  {
    match Navigate(data, parts)
    case Success(node) => Some(node)
    case Failure(_) => None
  }

  /**
   * What `updateValueAtPath` does to the document: walk all but the last step with
   * getValue, then setValue the last one. A failing walk step is reported with the
   * step; a failing setValue is reported as it is.
   */
  function UpdateAt(data: Node, parts: seq<string>, newValue: string, imageTagOnly: bool): Result<Node, PathError>
    requires |parts| >= 1
    decreases |parts|
  {
    if |parts| == 1 then SetValue(data, parts[0], newValue, imageTagOnly)
    else
      match GetValue(data, parts[0])
      case Failure(e) => Failure(AtPart(parts[0], e))
      case Success(child) =>
        match UpdateAt(child, parts[1..], newValue, imageTagOnly)
        case Failure(e) => Failure(e)
        case Success(updated) => Success(Put(data, parts[0], updated))
  }

  /** Walking `p + q` is walking `p`, then `q` from where `p` ended. */
  lemma {:induction false} NavigateAppend(data: Node, p: seq<string>, q: seq<string>)
    ensures Navigate(data, p + q)
         == match Navigate(data, p)
            case Failure(e) => Failure(e)
            case Success(mid) => Navigate(mid, q)
    decreases |p|
  {
    if |p| > 0 {
      assert (p + q)[0] == p[0];
      assert (p + q)[1..] == p[1..] + q;
      match GetValue(data, p[0])
      case Failure(_) =>
      case Success(child) => NavigateAppend(child, p[1..], q);
    } else {
      assert p + q == q;
    }
  }

  /** A one-step walk is getValue, with the step named on failure. */
  lemma NavigateOne(data: Node, key: string)
    ensures Navigate(data, [key]) == match GetValue(data, key)
                                     case Failure(e) => Failure(AtPart(key, e))
                                     case Success(child) => Success(child)
    ensures Reached(data, [key]) == Prior(data, key)
  {
    assert [key][1..] == [];
  }

  /**
   * The update succeeds exactly when all but the last step can be walked and the
   * last step designates a slot of where the walk ended: a mapping, or a sequence
   * with an index in range.
   */
  lemma {:induction false} UpdateAtSucceeds(data: Node, parts: seq<string>, newValue: string, imageTagOnly: bool)
    requires |parts| >= 1
    ensures UpdateAt(data, parts, newValue, imageTagOnly).Success?
        <==> Navigate(data, parts[..|parts| - 1]).Success?
             && Slot(Navigate(data, parts[..|parts| - 1]).value, parts[|parts| - 1]).Some?
    decreases |parts|
  {
    var front := parts[..|parts| - 1];
    if |parts| > 1 {
      assert front[0] == parts[0];
      assert front[1..] == parts[1..][..|parts[1..]| - 1];
      assert parts[1..][|parts[1..]| - 1] == parts[|parts| - 1];
      match GetValue(data, parts[0])
      case Failure(_) =>
      case Success(child) => UpdateAtSucceeds(child, parts[1..], newValue, imageTagOnly);
    }
  }

  /** After a successful update, walking the path yields what setValue stored there. */
  lemma {:induction false} UpdateThenNavigate(data: Node, parts: seq<string>, newValue: string, imageTagOnly: bool)
    requires |parts| >= 1 && UpdateAt(data, parts, newValue, imageTagOnly).Success?
    ensures Navigate(UpdateAt(data, parts, newValue, imageTagOnly).value, parts)
         == Success(Stored(Reached(data, parts), newValue, imageTagOnly))
    decreases |parts|
  {
    var updated := UpdateAt(data, parts, newValue, imageTagOnly).value;
    if |parts| == 1 {
      SetThenGet(data, parts[0], newValue, imageTagOnly);
      assert parts == [parts[0]];
      NavigateOne(data, parts[0]);
      NavigateOne(updated, parts[0]);
    } else {
      var child := GetValue(data, parts[0]).value;
      var inner := UpdateAt(child, parts[1..], newValue, imageTagOnly).value;
      UpdateThenNavigate(child, parts[1..], newValue, imageTagOnly);
      UpdateAtSucceeds(data, parts, newValue, imageTagOnly);
      PutThenGet(data, parts[0], parts[0], inner);
    }
  }

  /** The update stores `newValue` verbatim when the tag-only mode is off. */
  lemma UpdateThenNavigatePlain(data: Node, parts: seq<string>, newValue: string)
    requires |parts| >= 1 && UpdateAt(data, parts, newValue, false).Success?
    ensures Navigate(UpdateAt(data, parts, newValue, false).value, parts) == Success(Str(newValue))
  {
    UpdateThenNavigate(data, parts, newValue, false);
  }

  /**
   * Path `q` reaches no slot on or below the one path `p` updates, and does not stop
   * at one of its ancestors: at some step the two designate different slots.
   */
  predicate Apart(data: Node, p: seq<string>, q: seq<string>)
    decreases |p|
  {
    |p| > 0 && |q| > 0 &&
    (Slot(data, q[0]) != Slot(data, p[0])
     || (|p| > 1 && |q| > 1 && GetValue(data, p[0]).Success?
         && Apart(GetValue(data, p[0]).value, p[1..], q[1..])))
  }

  /** Every path apart from the updated one reads the same before and after the update. */
  lemma {:induction false} UpdateAtFrame(data: Node, p: seq<string>, q: seq<string>, newValue: string, imageTagOnly: bool)
    requires |p| >= 1 && UpdateAt(data, p, newValue, imageTagOnly).Success? && Apart(data, p, q)
    ensures Navigate(UpdateAt(data, p, newValue, imageTagOnly).value, q) == Navigate(data, q)
    decreases |p|
  {
    var updated := UpdateAt(data, p, newValue, imageTagOnly).value;
    UpdateAtSucceeds(data, p, newValue, imageTagOnly);
    assert Slot(data, p[0]).Some? by {
      if |p| > 1 {
        assert p[..|p| - 1][0] == p[0];
      }
    }
    if |p| == 1 {
      SetValueIsPut(data, p[0], newValue, imageTagOnly);
      PutFrame(data, p[0], q[0], Stored(Prior(data, p[0]), newValue, imageTagOnly));
    } else {
      var child := GetValue(data, p[0]).value;
      var inner := UpdateAt(child, p[1..], newValue, imageTagOnly).value;
      if Slot(data, q[0]) != Slot(data, p[0]) {
        PutFrame(data, p[0], q[0], inner);
      } else {
        PutThenGet(data, p[0], q[0], inner);
        SameSlotSameValue(data, p[0], q[0]);
        UpdateAtFrame(child, p[1..], q[1..], newValue, imageTagOnly);
      }
    }
  }

  /** Writing the same value twice is writing it once. */
  lemma {:induction false} UpdateAtPlainIdempotent(data: Node, parts: seq<string>, newValue: string)
    requires |parts| >= 1 && UpdateAt(data, parts, newValue, false).Success?
    ensures UpdateAt(UpdateAt(data, parts, newValue, false).value, parts, newValue, false)
         == UpdateAt(data, parts, newValue, false)
    decreases |parts|
  {
    var once := UpdateAt(data, parts, newValue, false).value;
    if |parts| == 1 {
      var key := parts[0];
      SetValueIsPut(data, key, newValue, false);
      SetValueIsPut(once, key, newValue, false);
      PutThenGet(data, key, key, Str(newValue));
      assert Slot(once, key) == Slot(data, key);
      PutTwice(data, key, Str(newValue), Str(newValue));
    } else {
      var child := GetValue(data, parts[0]).value;
      var inner := UpdateAt(child, parts[1..], newValue, false).value;
      UpdateAtSucceeds(data, parts, newValue, false);
      PutThenGet(data, parts[0], parts[0], inner);
      UpdateAtPlainIdempotent(child, parts[1..], newValue);
      assert Slot(once, parts[0]) == Slot(data, parts[0]);
      PutTwice(data, parts[0], inner, inner);
    }
  }

  /** A second Put into the same slot overrides the first. */
  lemma PutTwice(data: Node, key: string, first: Node, second: Node)
    requires Slot(data, key).Some?
    ensures Slot(Put(data, key, first), key) == Slot(data, key)
    ensures Put(Put(data, key, first), key, second) == Put(data, key, second)
  {
  }

  /**
   * The tag-only mode is idempotent when the slot held a string before and the tag
   * has no ':'.
   */
  lemma {:induction false} UpdateAtTagIdempotent(data: Node, parts: seq<string>, newTag: string)
    requires |parts| >= 1 && UpdateAt(data, parts, newTag, true).Success?
    requires Navigate(data, parts).Success? && Navigate(data, parts).value.Str?
    requires ':' !in newTag
    ensures UpdateAt(UpdateAt(data, parts, newTag, true).value, parts, newTag, true)
         == UpdateAt(data, parts, newTag, true)
    decreases |parts|
  {
    var once := UpdateAt(data, parts, newTag, true).value;
    if |parts| == 1 {
      var key := parts[0];
      var previous := GetValue(data, key).value;
      var retagged := Str(UpdateImageTag(previous.text, newTag));
      SetValueIsPut(data, key, newTag, true);
      assert once == Put(data, key, retagged);
      PutThenGet(data, key, key, retagged);
      SetValueIsPut(once, key, newTag, true);
      UpdateImageTagIdempotent(previous.text, newTag);
      assert Stored(Prior(once, key), newTag, true) == retagged;
      PutTwice(data, key, retagged, retagged);
    } else {
      var child := GetValue(data, parts[0]).value;
      var inner := UpdateAt(child, parts[1..], newTag, true).value;
      UpdateAtSucceeds(data, parts, newTag, true);
      PutThenGet(data, parts[0], parts[0], inner);
      UpdateAtTagIdempotent(child, parts[1..], newTag);
      assert Slot(once, parts[0]) == Slot(data, parts[0]);
      PutTwice(data, parts[0], inner, inner);
    }
  }

  /**
   * Without a string in the slot the tag-only mode is not idempotent: a missing key
   * first receives the bare tag, and a second run appends the tag to it.
   */
  lemma TagOnlyOnMissingKey(entries: map<string, Node>, key: string, newTag: string)
    requires key !in entries && ':' !in newTag
    ensures SetValue(Map(entries), key, newTag, true) == Success(Map(entries[key := Str(newTag)]))
    ensures SetValue(Map(entries[key := Str(newTag)]), key, newTag, true)
         == Success(Map(entries[key := Str(newTag + ":" + newTag)]))
  {
    UpdateImageTagSpec(newTag, newTag);
    assert LastIndexOf(newTag, ':').None?;
    assert entries[key := Str(newTag)][key := Str(newTag + ":" + newTag)] == entries[key := Str(newTag + ":" + newTag)];
  }

  // ---------------------------------------------------------------------------
  // updateValueAtPath
  // ---------------------------------------------------------------------------

  /** Put a child back into each ancestor recorded on the way down, innermost last. */
  function Plug(trail: seq<(Node, string)>, child: Node): Node
    decreases |trail|
  {
    if |trail| == 0 then child
    else Plug(trail[..|trail| - 1], Put(trail[|trail| - 1].0, trail[|trail| - 1].1, child))
  }

  function Lift(trail: seq<(Node, string)>, r: Result<Node, PathError>): Result<Node, PathError>
  {
    match r
    case Failure(e) => Failure(e)
    case Success(child) => Success(Plug(trail, child))
  }

  /**
   * `updateValueAtPath`: parse the path, walk every part but the last with getValue,
   * and setValue the last one into the node reached. The loop keeps the ancestors it
   * passed so that the changed node can be put back into the document.
   */
  method UpdateValueAtPath(data: Node, path: string, newValue: string, imageTagOnly: bool)
    returns (r: Result<Node, PathError>)
    ensures r == UpdateAt(data, ParsePath(path), newValue, imageTagOnly)
  {
    var parts := ParsePath(path);
    ParsePathShape(path);
    var current := data;
    var trail: seq<(Node, string)> := [];
    var i := 0;
    while i < |parts|
      invariant 0 <= i < |parts|
      invariant UpdateAt(data, parts, newValue, imageTagOnly)
             == Lift(trail, UpdateAt(current, parts[i..], newValue, imageTagOnly))
      decreases |parts| - i
    {
      var part := parts[i];
      if i == |parts| - 1 {
        var stored := SetValue(current, part, newValue, imageTagOnly);
        assert parts[i..] == [part];
        return Lift(trail, stored);
      }
      var next := GetValue(current, part);
      if next.Failure? {
        return Failure(AtPart(part, next.error));
      }
      assert parts[i..][1..] == parts[i + 1..];
      LiftPut(trail, current, part, UpdateAt(next.value, parts[i + 1..], newValue, imageTagOnly));
      trail := trail + [(current, part)];
      current := next.value;
      i := i + 1;
    }
    assert false;
  }

  lemma LiftPut(trail: seq<(Node, string)>, parent: Node, key: string, r: Result<Node, PathError>)
    ensures Lift(trail + [(parent, key)], r)
         == Lift(trail, match r case Failure(e) => Failure(e) case Success(c) => Success(Put(parent, key, c)))
  {
    var t := trail + [(parent, key)];
    assert t[..|t| - 1] == trail;
  }
}
