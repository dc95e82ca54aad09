/** The credential record `PasswordEntry`: its fields, constructors,
    setters, comparison operators and the `|`-delimited text codec. */
module PasswordEntry {
  import opened Base
  import opened Errors
  import opened NumText
  import opened Getline

  /** One credential. `created` and `lastModified` are `time_t` seconds. */
  datatype Entry = Entry(
    id: Int32,
    service: CStr,
    username: CStr,
    password: CStr,
    url: CStr,
    notes: CStr,
    category: CStr,
    created: Int64,
    lastModified: Int64)

  /** The six free-text fields, each with a getter and a setter. */
  datatype TextField = Service | Username | Password | Url | Notes | Category

  /** The getter of a text field: the stored value itself. */
  function Get(e: Entry, f: TextField): CStr
  {
    match f
    case Service => e.service
    case Username => e.username
    case Password => e.password
    case Url => e.url
    case Notes => e.notes
    case Category => e.category
  }

  /** The setter of a text field: stores the value and then `updateModified()`,
      which stamps `lastModified` with the clock reading `now`. */
  function SetField(e: Entry, f: TextField, value: CStr, now: Int64): (r: Entry)
    ensures Get(r, f) == value
    ensures forall g: TextField :: g != f ==> Get(r, g) == Get(e, g)
    ensures r.id == e.id && r.created == e.created
    ensures r.lastModified == now
  {
    match f
    case Service => e.(service := value, lastModified := now)
    case Username => e.(username := value, lastModified := now)
    case Password => e.(password := value, lastModified := now)
    case Url => e.(url := value, lastModified := now)
    case Notes => e.(notes := value, lastModified := now)
    case Category => e.(category := value, lastModified := now)
  }

  function SetService(e: Entry, s: CStr, now: Int64): Entry { SetField(e, Service, s, now) }
  function SetUsername(e: Entry, u: CStr, now: Int64): Entry { SetField(e, Username, u, now) }
  function SetPassword(e: Entry, p: CStr, now: Int64): Entry { SetField(e, Password, p, now) }
  function SetUrl(e: Entry, u: CStr, now: Int64): Entry { SetField(e, Url, u, now) }
  function SetNotes(e: Entry, n: CStr, now: Int64): Entry { SetField(e, Notes, n, now) }
  function SetCategory(e: Entry, c: CStr, now: Int64): Entry { SetField(e, Category, c, now) }

  /** `setId`: replaces the id and, like every setter, refreshes `lastModified`. */
  function SetId(e: Entry, newId: Int32, now: Int64): (r: Entry)
    ensures r.id == newId && r.lastModified == now
    ensures forall g: TextField :: Get(r, g) == Get(e, g)
    ensures r.created == e.created
  {
    e.(id := newId, lastModified := now)
  }

  /** The record invariant: never modified before it was created. */
  predicate WellStamped(e: Entry)
  {
    e.lastModified >= e.created
  }

  /** With a clock that does not run backwards, a setter never moves
      `lastModified` back and keeps the record well stamped. */
  lemma {:induction false} SettersKeepStamps(e: Entry, f: TextField, value: CStr, newId: Int32, now: Int64)
    requires now >= e.lastModified
    ensures SetField(e, f, value, now).lastModified >= e.lastModified
    ensures SetId(e, newId, now).lastModified >= e.lastModified
    ensures WellStamped(e) ==> WellStamped(SetField(e, f, value, now)) && WellStamped(SetId(e, newId, now))
  {
  }

  /** The default constructor: id 0, empty text, both stamps `now`. */
  function DefaultEntry(now: Int64): (e: Entry)
    ensures e.id == 0
    ensures forall f: TextField :: Get(e, f) == []
    ensures e.created == now && e.lastModified == now && WellStamped(e)
  {
    Entry(0, "", "", "", "", "", "", now, now)
  }

  /** The four-argument constructor: url, notes and category start empty. */
  function NewEntry(id: Int32, service: CStr, username: CStr, password: CStr, now: Int64): (e: Entry)
    ensures e.id == id
    ensures Get(e, Service) == service && Get(e, Username) == username && Get(e, Password) == password
    ensures Get(e, Url) == [] && Get(e, Notes) == [] && Get(e, Category) == []
    ensures e.created == now && e.lastModified == now && WellStamped(e)
  {
    Entry(id, service, username, password, "", "", "", now, now)
  }

  /** `operator==`: two records are equal when their ids are. */
  predicate SameId(a: Entry, b: Entry)
  {
    a.id == b.id
  }

  /** `SameId` is an equivalence that ignores every field but the id: any
      record given another record's id compares equal to it, whatever its
      text and stamps, and so does a record after any setter. */
  lemma {:induction false} SameIdIsIdOnly(a: Entry, b: Entry, c: Entry, f: TextField, value: CStr, now: Int64)
    ensures SameId(a, a)
    ensures SameId(a, b) ==> SameId(b, a)
    ensures SameId(a, b) && SameId(b, c) ==> SameId(a, c)
    ensures SameId(a, b.(id := a.id))
    ensures SameId(a, SetField(a, f, value, now))
    ensures a.id != b.id ==> !SameId(a, b)
  {
  }

  /** `std::string::operator<`: lexicographic order, bytes compared as unsigned,
      a proper prefix before its extensions. */
  predicate LexLess(a: CStr, b: CStr)
  {
    if |a| == 0 then |b| > 0
    else if |b| == 0 then false
    else if a[0] != b[0] then a[0] < b[0]
    else LexLess(a[1..], b[1..])
  }

  lemma {:induction false} LexLessIrreflexive(a: CStr)
    ensures !LexLess(a, a)
  {
    if |a| > 0 {
      LexLessIrreflexive(a[1..]);
    }
  }

  lemma {:induction false} LexLessTransitive(a: CStr, b: CStr, c: CStr)
    requires LexLess(a, b) && LexLess(b, c)
    ensures LexLess(a, c)
  {
    if |a| > 0 && |b| > 0 && |c| > 0 && a[0] == b[0] && b[0] == c[0] {
      LexLessTransitive(a[1..], b[1..], c[1..]);
    }
  }

  lemma {:induction false} LexLessTotal(a: CStr, b: CStr)
    ensures a == b || LexLess(a, b) || LexLess(b, a)
  {
    if |a| > 0 && |b| > 0 && a[0] == b[0] {
      LexLessTotal(a[1..], b[1..]);
      if a[1..] == b[1..] {
        assert a == [a[0]] + a[1..] && b == [b[0]] + b[1..];
      }
    }
  }

  /** `operator<`: records ordered by service name alone. */
  predicate ServiceLess(a: Entry, b: Entry)
  {
    LexLess(a.service, b.service)
  }

  /** `ServiceLess` is a strict weak order in which two records are
      incomparable exactly when their services are equal. */
  lemma {:induction false} ServiceLessIsStrictWeakOrder(a: Entry, b: Entry, c: Entry)
    ensures !ServiceLess(a, a)
    ensures ServiceLess(a, b) && ServiceLess(b, c) ==> ServiceLess(a, c)
    ensures ServiceLess(a, b) ==> !ServiceLess(b, a)
    ensures !ServiceLess(a, b) && !ServiceLess(b, a) <==> a.service == b.service
  {
    LexLessIrreflexive(a.service);
    LexLessIrreflexive(b.service);
    if ServiceLess(a, b) && ServiceLess(b, c) {
      LexLessTransitive(a.service, b.service, c.service);
    }
    if ServiceLess(a, b) && ServiceLess(b, a) {
      LexLessTransitive(a.service, b.service, a.service);
    }
    LexLessTotal(a.service, b.service);
  }

  /** The six text fields in serialization order. */
  function TextFields(e: Entry): seq<CStr>
  {
    [e.service, e.username, e.password, e.url, e.notes, e.category]
  }

  /** No text field holds the delimiter. */
  predicate PipeFree(e: Entry)
  {
    forall k :: 0 <= k < |TextFields(e)| ==> DELIM !in TextFields(e)[k]
  }

  /** The nine fields `serialize` writes, in order. */
  function Fields(e: Entry): seq<CStr>
  {
    [IntToString(e.id)] + TextFields(e) + [IntToString(e.created), IntToString(e.lastModified)]
  }

  /** `serialize`: the nine fields joined by `|`, with no escaping. */
  function Serialize(e: Entry): (s: CStr)
    ensures |s| > 0
  {
    JoinEndsWithLast(Fields(e));
    Join(Fields(e))
  }

  /** Because the text fields are not escaped, the serialized text splits into
      one field more than it has delimiters: nine plus however many
      delimiters the text fields carry. */
  lemma {:induction false} SerializeFieldCount(e: Entry)
    ensures |Split(Serialize(e))| == 9 + SumDelims(TextFields(e))
  {
    var fs := Fields(e);
    CountDelimsJoin(fs);
    SumDelimsFields(e);
    JoinEndsWithLast(fs);
  }

  lemma {:induction false} SumDelimsFields(e: Entry)
    ensures SumDelims(Fields(e)) == SumDelims(TextFields(e))
  {
    var t := TextFields(e);
    var fs := Fields(e);
    CountDelimsZero(IntToString(e.id));
    CountDelimsZero(IntToString(e.created));
    CountDelimsZero(IntToString(e.lastModified));
    var stamps := [IntToString(e.created), IntToString(e.lastModified)];
    assert fs[1..] == t + stamps;
    SumDelimsConcat(t, stamps);
    assert SumDelims(stamps) == CountDelims(stamps[0]) + CountDelims(stamps[1]) + SumDelims(stamps[1..][1..]);
    assert SumDelims(stamps) == 0;
  }

  lemma {:induction false} SumDelimsConcat(a: seq<CStr>, b: seq<CStr>)
    ensures SumDelims(a + b) == SumDelims(a) + SumDelims(b)
  {
    if |a| > 0 {
      assert (a + b)[1..] == a[1..] + b;
      SumDelimsConcat(a[1..], b);
    } else {
      assert a + b == b;
    }
  }

  lemma {:induction false} JoinEndsWithLast(fs: seq<CStr>)
    requires |fs| > 0 && |fs[|fs| - 1]| > 0
    ensures |Join(fs)| > 0 && Join(fs)[|Join(fs)| - 1] == fs[|fs| - 1][|fs[|fs| - 1]| - 1]
  {
    if |fs| > 1 {
      JoinEndsWithLast(fs[1..]);
    }
  }

  const FORMAT_ERROR: Error := EntryError("Entry Error: Invalid serialized entry format")

  /** `std::stoi` on the id field. */
  function ParseId(s: CStr): Result<int>
  {
    ParseInt(s, INT32_MIN, INT32_MAX, "stoi")
  }

  /** `std::stoll` on a timestamp field. */
  function ParseStamp(s: CStr): Result<int>
  {
    ParseInt(s, INT64_MIN, INT64_MAX, "stoll")
  }

  /** The id and both timestamps of nine split fields parse. */
  predicate NumbersParse(f: seq<CStr>)
    requires |f| == 9
  {
    ParseId(f[0]).Ok? && ParseStamp(f[7]).Ok? && ParseStamp(f[8]).Ok?
  }

  /** The record's id and timestamps are what `stoi` and `stoll` read from
      fields 0, 7 and 8. */
  predicate Numbers(e: Entry, f: seq<CStr>)
    requires |f| == 9
  {
    ParseId(f[0]) == Ok(e.id as int) && ParseStamp(f[7]) == Ok(e.created as int)
    && ParseStamp(f[8]) == Ok(e.lastModified as int)
  }

  /** `deserialize`: split as `getline` does; anything but nine fields is an
      `EntryException`; the id then goes through `stoi` and the two stamps
      through `stoll`, whose own exceptions pass through unchanged. */
  function Deserialize(s: CStr): (r: Result<Entry>)
    ensures r == Err(FORMAT_ERROR) <==> |Split(s)| != 9
    ensures r.Err? ==> r.error == FORMAT_ERROR || r.error.InvalidArgument? || r.error.OutOfRange?
    ensures |Split(s)| == 9 ==> (r.Ok? <==> NumbersParse(Split(s)))
    ensures r.Ok? ==> |Split(s)| == 9 && TextFields(r.value) == Split(s)[1..7] && Numbers(r.value, Split(s))
  {
    var f := Split(s);
    if |f| != 9 then Err(FORMAT_ERROR) else FromFields(f)
  }

  /** The record nine split fields denote, parsed in the order the source
      parses them: id, then created, then last modified. */
  function FromFields(f: seq<CStr>): (r: Result<Entry>)
    requires |f| == 9
    ensures r.Err? ==> r.error.InvalidArgument? || r.error.OutOfRange?
    ensures r.Ok? <==> NumbersParse(f)
    ensures ParseId(f[0]).Err? ==> r == Err(ParseId(f[0]).error)
    ensures ParseId(f[0]).Ok? && ParseStamp(f[7]).Err? ==> r == Err(ParseStamp(f[7]).error)
    ensures r.Ok? ==> TextFields(r.value) == f[1..7] && Numbers(r.value, f)
  {
    var id :- ParseId(f[0]);
    WithTimes(id, f[1..7], f[7], f[8])
  }

  /** The rest of `deserialize` once the id is parsed: the two timestamps. */
  function WithTimes(id: Int32, text: seq<CStr>, created: CStr, modified: CStr): (r: Result<Entry>)
    requires |text| == 6
    ensures r.Err? ==> r.error.InvalidArgument? || r.error.OutOfRange?
    ensures r.Ok? <==> ParseStamp(created).Ok? && ParseStamp(modified).Ok?
    ensures ParseStamp(created).Err? ==> r == Err(ParseStamp(created).error)
    ensures ParseStamp(created).Ok? && ParseStamp(modified).Err? ==> r == Err(ParseStamp(modified).error)
    ensures r.Ok? ==> TextFields(r.value) == text && r.value.id == id
                      && ParseStamp(created) == Ok(r.value.created as int)
                      && ParseStamp(modified) == Ok(r.value.lastModified as int)
  {
    var c :- ParseStamp(created);
    var m :- ParseStamp(modified);
    Ok(WithText(id, text, c, m))
  }

  /** The record with the given numbers and the six text fields in order. */
  function WithText(id: Int32, text: seq<CStr>, created: Int64, modified: Int64): (e: Entry)
    requires |text| == 6
    ensures TextFields(e) == text
  {
    var e := Entry(id, text[0], text[1], text[2], text[3], text[4], text[5], created, modified);
    assert TextFields(e) == text;
    e
  }

  /** The codec round trip, with its exact precondition: reading back what
      `serialize` wrote gives the same record in all nine fields when no text
      field contains `|`, and an `EntryException` otherwise. */
  lemma {:induction false} SerializeRoundTrip(e: Entry)
    ensures PipeFree(e) ==> Deserialize(Serialize(e)) == Ok(e)
    ensures !PipeFree(e) ==> Deserialize(Serialize(e)) == Err(FORMAT_ERROR)
  {
    var fs := Fields(e);
    SumDelimsZero(TextFields(e));
    SerializeFieldCount(e);
    if PipeFree(e) {
      forall k | 0 <= k < |fs|
        ensures DELIM !in fs[k]
      {
        if 1 <= k < 7 {
          assert fs[k] == TextFields(e)[k - 1];
        }
      }
      SplitJoin(fs);
      ParseIntToString(e.id, INT32_MIN, INT32_MAX, "stoi");
      ParseIntToString(e.created, INT64_MIN, INT64_MAX, "stoll");
      ParseIntToString(e.lastModified, INT64_MIN, INT64_MAX, "stoll");
    }
  }

  /** A numeric field that does not start with a digit, sign or space surfaces
      as `std::invalid_argument`, not as an `EntryException`. */
  lemma {:induction false} NonNumericIdIsInvalidArgument(s: CStr)
    requires |Split(s)| == 9
    requires var f0 := Split(s)[0]; |f0| > 0 && !IsDigit(f0[0]) && !IsSpace(f0[0]) && f0[0] != '-' && f0[0] != '+'
    ensures Deserialize(s) == Err(InvalidArgument("stoi"))
  {
    ParseIntNoDigits(Split(s)[0], INT32_MIN, INT32_MAX, "stoi");
  }

  /** The same for a timestamp: once the id parses, a creation time that
      does not start with a digit, sign or space is `std::invalid_argument`
      from `stoll`. */
  lemma {:induction false} NonNumericStampIsInvalidArgument(s: CStr)
    requires |Split(s)| == 9 && ParseId(Split(s)[0]).Ok?
    requires var f7 := Split(s)[7]; |f7| > 0 && !IsDigit(f7[0]) && !IsSpace(f7[0]) && f7[0] != '-' && f7[0] != '+'
    ensures Deserialize(s) == Err(InvalidArgument("stoll"))
  {
    ParseIntNoDigits(Split(s)[7], INT64_MIN, INT64_MAX, "stoll");
  }
}
