/** Shared vocabulary of the marketplace backend: optional and failure-carrying values,
    the error kinds its services raise, and the few Java string operations the services
    rely on (null-to-text conversion, literal replacement, case-insensitive comparison). */
module Common {

  /** Entity identifiers that the persistence layer assigns as UUID strings. */
  type Id = string

  /** A Java `Double` that the services only copy (prices, money offers); no arithmetic is done on it. */
  type Amount = real

  /** A database timestamp; it is only ever copied or formatted, never computed. */
  type Timestamp = nat

  /** A Java reference that may be null. */
  datatype Option<+T> = None | Some(value: T) {
    function GetOr(default: T): T {
      match this
      case Some(v) => v
      case None => default
    }
  }

  /** The exceptions the services throw, by kind. */
  datatype Error =
    | NotFound(entity: string)        // a findById that resolved nothing
    | NotAuthorized                   // caller is not the owner / requester the operation demands
    | NotPending                      // a trade request whose status is not PENDING
    | OwnDonation                     // a user requesting their own donation
    | AlreadyExists(what: string)     // e-mail or category name already taken
    | InvalidArgument(reason: string) // IllegalArgumentException on bad input
    | NoPrincipal                     // no authenticated user

  /** Either the value a service returns or the exception it throws. */
  datatype Result<+T> = Ok(value: T) | Err(error: Error)

  /** Java's string conversion of a possibly-null string, as `+` concatenation applies it. */
  function Str(s: Option<string>): (r: string)
    ensures s.Some? ==> r == s.value
    ensures s.None? ==> r == "null"
  {
    match s
    case Some(v) => v
    case None => "null"
  }

  /** True iff `target` occurs in `s` as a contiguous block. */
  predicate Contains(s: string, target: string)
    decreases |s|
  {
    |target| <= |s| && (s[..|target|] == target || (|s| > 0 && Contains(s[1..], target)))
  }

  /** Java's `String.replace(target, replacement)` for a non-empty literal target: every
      non-overlapping occurrence, scanning left to right, is replaced. */
  function Replace(s: string, target: string, replacement: string): (r: string)
    requires |target| > 0
    decreases |s|
  {
    if |s| < |target| then s
    else if s[..|target|] == target then replacement + Replace(s[|target|..], target, replacement)
    else [s[0]] + Replace(s[1..], target, replacement)
  }

  /** A string in which the target never occurs is left as it is. */
  lemma {:induction false} ReplaceAbsent(s: string, target: string, replacement: string)
    requires |target| > 0
    requires !Contains(s, target)
    ensures Replace(s, target, replacement) == s
    decreases |s|
  {
    if |s| >= |target| {
      ReplaceAbsent(s[1..], target, replacement);
      assert [s[0]] + s[1..] == s;
    }
  }

  /** A leading occurrence of the target is replaced, and scanning resumes after it. */
  lemma ReplaceLeading(target: string, rest: string, replacement: string)
    requires |target| > 0
    ensures Replace(target + rest, target, replacement) == replacement + Replace(rest, target, replacement)
  {
    assert (target + rest)[..|target|] == target;
    assert (target + rest)[|target|..] == rest;
  }

  /** Removing a prefix from a text that holds it only at the front leaves the rest. */
  lemma RemoveLeadingOnly(target: string, rest: string)
    requires |target| > 0 && !Contains(rest, target)
    ensures Replace(target + rest, target, "") == rest
  {
    ReplaceLeading(target, rest, "");
    ReplaceAbsent(rest, target, "");
  }

  /** A text lacking one of the target's characters does not contain the target. */
  lemma {:induction false} MissingCharNotContained(s: string, target: string, c: char)
    requires c in target && c !in s
    ensures !Contains(s, target)
    decreases |s|
  {
    if |target| <= |s| {
      assert c !in s[..|target|];
      if |s| > 0 {
        MissingCharNotContained(s[1..], target, c);
      }
    }
  }

  /** Replacing a one-character target distributes over concatenation. */
  lemma {:induction false} ReplaceCharConcat(a: string, b: string, c: char, replacement: string)
    ensures Replace(a + b, [c], replacement) == Replace(a, [c], replacement) + Replace(b, [c], replacement)
    decreases |a|
  {
    if |a| == 0 {
      assert a + b == b;
    } else {
      assert (a + b)[..1] == a[..1];
      assert (a + b)[1..] == a[1..] + b;
      ReplaceCharConcat(a[1..], b, c, replacement);
    }
  }

  /** Replacing a one-character target by a text that does not hold it removes that character. */
  lemma {:induction false} ReplaceCharRemoves(s: string, c: char, replacement: string)
    requires c !in replacement
    ensures c !in Replace(s, [c], replacement)
    decreases |s|
  {
    if |s| >= 1 {
      ReplaceCharRemoves(s[1..], c, replacement);
    }
  }

  /** Upper-case mapping of the ASCII letters; every other character maps to itself. */
  function UpperAscii(c: char): (u: char)
    ensures 'a' <= c <= 'z' ==> 'A' <= u <= 'Z' && u as int == c as int - 32
    ensures !('a' <= c <= 'z') ==> u == c
  {
    if 'a' <= c <= 'z' then (c as int - 32) as char else c
  }

  /** Java's `String.equalsIgnoreCase`, restricted to ASCII case folding. */
  predicate EqualsIgnoreCase(a: string, b: string) {
    |a| == |b| && forall i :: 0 <= i < |a| ==> UpperAscii(a[i]) == UpperAscii(b[i])
  }

  /** Case-insensitive equality is an equivalence that contains plain equality. */
  lemma EqualsIgnoreCaseIsEquivalence(a: string, b: string, c: string)
    ensures EqualsIgnoreCase(a, a)
    ensures EqualsIgnoreCase(a, b) ==> EqualsIgnoreCase(b, a)
    ensures EqualsIgnoreCase(a, b) && EqualsIgnoreCase(b, c) ==> EqualsIgnoreCase(a, c)
  {
  }

  /** `f` applied to each element of `s`, in order. */
  function MapSeq<T, U>(s: seq<T>, f: T -> U): (r: seq<U>)
    ensures |r| == |s|
    ensures forall i :: 0 <= i < |s| ==> r[i] == f(s[i])
  {
    if |s| == 0 then [] else [f(s[0])] + MapSeq(s[1..], f)
  }

  /** Mapping over a sequence with one more element at the end adds that element's image. */
  lemma MapSeqSnoc<T, U>(s: seq<T>, x: T, f: T -> U)
    ensures MapSeq(s + [x], f) == MapSeq(s, f) + [f(x)]
  {
    assert forall i :: 0 <= i < |s| ==> (s + [x])[i] == s[i];
  }

  /** The smaller of two integers. */
  function Min(a: int, b: int): (m: int)
    ensures m <= a && m <= b && (m == a || m == b)
  {
    if a <= b then a else b
  }
}
