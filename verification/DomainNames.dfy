/** Names compared label by label: the hosts a client's URIs must share, the
    reverse-DNS schemes of native clients, and the hosts a rule's domain covers.
    A character stands for one byte. */
module DomainNames {
  import opened Options

  // --- labels

  function Labels(name: string): (labels: seq<string>)
    ensures |labels| >= 1
  {
    if name == "" then [""]
    else
      var rest := Labels(name[1..]);
      if name[0] == '.' then [""] + rest else [[name[0]] + rest[0]] + rest[1..]
  }

  function Joined(labels: seq<string>): string
    requires labels != []
  {
    if |labels| == 1 then labels[0] else labels[0] + "." + Joined(labels[1..])
  }

  ghost predicate Dotless(labels: seq<string>) {
    forall i :: 0 <= i < |labels| ==> '.' !in labels[i]
  }

  lemma {:induction false} LabelsAreDotless(name: string)
    ensures Dotless(Labels(name))
  {
    if name != "" { LabelsAreDotless(name[1..]); }
  }

  lemma JoinedGrows(c: char, labels: seq<string>)
    requires labels != []
    ensures Joined([[c] + labels[0]] + labels[1..]) == [c] + Joined(labels)
  {
  }

  lemma {:induction false} JoinedLabels(name: string)
    ensures Joined(Labels(name)) == name
  {
    if name != "" {
      JoinedLabels(name[1..]);
      if name[0] == '.' {
        assert Labels(name)[1..] == Labels(name[1..]);
      } else {
        JoinedGrows(name[0], Labels(name[1..]));
      }
      assert [name[0]] + name[1..] == name;
    }
  }

  lemma {:induction false} LabelsOfDotless(text: string)
    requires '.' !in text
    ensures Labels(text) == [text]
  {
    if text != "" {
      LabelsOfDotless(text[1..]);
      assert [text[0]] + text[1..] == text;
    }
  }

  /** A dot between two names only puts their labels side by side. */
  lemma {:induction false} LabelsAcrossDot(front: string, back: string)
    ensures Labels(front + "." + back) == Labels(front) + Labels(back)
  {
    var name := front + "." + back;
    if front == "" {
      assert name[1..] == back;
    } else {
      assert name[1..] == front[1..] + "." + back;
      LabelsAcrossDot(front[1..], back);
    }
  }

  lemma {:induction false} LabelsOfJoined(labels: seq<string>)
    requires labels != [] && Dotless(labels)
    ensures Labels(Joined(labels)) == labels
  {
    LabelsOfDotless(labels[0]);
    if |labels| > 1 {
      LabelsOfJoined(labels[1..]);
      LabelsAcrossDot(labels[0], Joined(labels[1..]));
      assert [labels[0]] + labels[1..] == labels;
    } else {
      assert [labels[0]] == labels;
    }
  }

  lemma {:induction false} JoinedAcross(a: seq<string>, b: seq<string>)
    requires a != [] && b != []
    ensures Joined(a + b) == Joined(a) + "." + Joined(b)
  {
    var both := a + b;
    if |a| == 1 {
      assert both[1..] == b;
    } else {
      assert both[1..] == a[1..] + b;
      JoinedAcross(a[1..], b);
      assert a[0] + "." + (Joined(a[1..]) + "." + Joined(b)) == a[0] + "." + Joined(a[1..]) + "." + Joined(b);
    }
  }

  predicate IsSuffix<T(==)>(end: seq<T>, all: seq<T>) {
    |end| <= |all| && all[|all| - |end|..] == end
  }

  predicate EndsWithDot(s: string) {
    s != "" && s[|s| - 1] == '.'
  }

  // --- hosts that share a base

  predicate SharesBase(host: string, base: Option<string>) {
    base.None?
    || host == base.value
    || (IsSuffix(base.value, host) && EndsWithDot(host[..|host| - |base.value|]))
  }

  /** The base's labels are the host's last labels. */
  lemma SharesBaseByLabels(host: string, base: string)
    ensures SharesBase(host, Some(base)) <==> IsSuffix(Labels(base), Labels(host))
  {
    if SharesBase(host, Some(base)) && host != base {
      var front := host[..|host| - |base| - 1];
      assert host == front + "." + base;
      LabelsAcrossDot(front, base);
    }
    if IsSuffix(Labels(base), Labels(host)) {
      SuffixShares(host, base);
    }
  }

  lemma SuffixShares(host: string, base: string)
    requires IsSuffix(Labels(base), Labels(host))
    ensures SharesBase(host, Some(base))
  {
    JoinedLabels(host);
    JoinedLabels(base);
    var front := Labels(host)[..|Labels(host)| - |Labels(base)|];
    assert Labels(host) == front + Labels(base);
    if front != [] {
      JoinedAcross(front, Labels(base));
      assert host[..|host| - |base|] == Joined(front) + ".";
    } else {
      assert Labels(host) == Labels(base);
    }
  }

  // --- reverse-DNS schemes

  function Reversed<T>(s: seq<T>): seq<T> {
    seq(|s|, i requires 0 <= i < |s| => s[|s| - 1 - i])
  }

  /** The name read label by label from the other end. */
  function ReversedName(name: string): string {
    Joined(Reversed(Labels(name)))
  }

  lemma LabelsOfReversed(name: string)
    ensures Labels(ReversedName(name)) == Reversed(Labels(name))
  {
    LabelsAreDotless(name);
    LabelsOfJoined(Reversed(Labels(name)));
  }

  /** Reading a name backwards twice gives it back. */
  lemma ReversedTwice(name: string)
    ensures ReversedName(ReversedName(name)) == name
  {
    LabelsOfReversed(name);
    assert Reversed(Reversed(Labels(name))) == Labels(name);
    JoinedLabels(name);
  }

  /** Draws `labels` one by one while they are the ones wanted. */
  method DrawsAll(labels: seq<string>, wanted: seq<string>) returns (ok: bool)
    ensures ok <==> wanted <= labels
  {
    for i := 0 to |wanted|
      invariant i <= |labels| && wanted[..i] <= labels
    {
      if i >= |labels| || labels[i] != wanted[i] { return false; }
    }
    return true;
  }

  lemma PrefixBackwards(end: seq<string>, all: seq<string>)
    ensures Reversed(end) <= all <==> IsSuffix(end, Reversed(all))
  {
  }

  /** A native client's scheme is accepted exactly when it has a dot and, read
      backwards, is a host that shares the client's base. */
  method IsReverseDns(scheme: string, base: Option<string>) returns (ok: bool)
    ensures ok <==> '.' in scheme && SharesBase(ReversedName(scheme), base)
  {
    if '.' !in scheme { return false; }
    if base.None? { return true; }
    LabelsOfReversed(scheme);
    SharesBaseByLabels(ReversedName(scheme), base.value);
    PrefixBackwards(Labels(base.value), Labels(scheme));
    ok := DrawsAll(Labels(scheme), Reversed(Labels(base.value)));
  }

  // --- the hosts a domain covers

  function Lower(c: char): char {
    if 'A' <= c <= 'Z' then (c as int + 32) as char else c
  }

  function Lowered(s: string): string {
    seq(|s|, i requires 0 <= i < |s| => Lower(s[i]))
  }

  function WithoutLeadingDot(domain: string): string {
    if domain != "" && domain[0] == '.' then domain[1..] else domain
  }

  predicate HostnameMatchesDomain(hostname: string, domain: string) {
    if domain == "." then EndsWithDot(hostname)
    else
      var d := WithoutLeadingDot(domain);
      d != ""
      && (Lowered(hostname) == Lowered(d)
          || (|hostname| > |d|
              && hostname[|hostname| - |d| - 1] == '.'
              && Lowered(hostname[|hostname| - |d|..]) == Lowered(d)))
  }

  /** Apart from the root, a domain covers exactly the hosts whose last labels are
      the domain's, case aside. */
  lemma MatchesByLabels(hostname: string, domain: string)
    ensures HostnameMatchesDomain(hostname, domain)
       <==> if domain == "." then EndsWithDot(hostname)
            else WithoutLeadingDot(domain) != "" && IsSuffix(Labels(Lowered(WithoutLeadingDot(domain))), Labels(Lowered(hostname)))
  {
    var d := WithoutLeadingDot(domain);
    SharesBaseByLabels(Lowered(hostname), Lowered(d));
    if |hostname| > |d| {
      var k := |hostname| - |d|;
      assert Lowered(hostname)[k..] == Lowered(hostname[k..]);
      assert Lowered(hostname)[..k][k - 1] == '.' <==> hostname[k - 1] == '.';
    }
  }

  /** The two comparisons agree on lower-case names. */
  lemma MatchesAgrees(hostname: string, domain: string)
    requires Lowered(hostname) == hostname && Lowered(domain) == domain
    requires domain != "" && domain[0] != '.'
    ensures HostnameMatchesDomain(hostname, domain) <==> SharesBase(hostname, Some(domain))
  {
  }

  /** The same character, or the two cases of one letter from a to z. */
  predicate SameLetter(a: char, b: char) {
    || a == b
    || ('A' <= a <= 'Z' && 'a' <= b <= 'z' && a - 'A' == b - 'a')
    || ('A' <= b <= 'Z' && 'a' <= a <= 'z' && b - 'A' == a - 'a')
  }

  predicate SameLetters(s: string, t: string) {
    |s| == |t| && forall i :: 0 <= i < |s| ==> SameLetter(s[i], t[i])
  }

  lemma LowersAlike(a: char, b: char)
    ensures Lower(a) == Lower(b) <==> SameLetter(a, b)
  {
  }

  lemma LoweredAlike(s: string, t: string)
    ensures Lowered(s) == Lowered(t) <==> SameLetters(s, t)
  {
    forall i | 0 <= i < |s| && i < |t| ensures Lowered(s)[i] == Lowered(t)[i] <==> SameLetter(s[i], t[i]) { LowersAlike(s[i], t[i]); }
    if SameLetters(s, t) {
      assert Lowered(s) == Lowered(t);
    } else if |s| == |t| {
      var i :| 0 <= i < |s| && !SameLetter(s[i], t[i]);
      assert Lowered(s)[i] != Lowered(t)[i];
    }
  }

  /** A domain covers itself and whatever ends with a dot and itself, letters
      compared without their case. */
  lemma MatchesByLetters(hostname: string, domain: string)
    requires domain != "" && domain[0] != '.'
    ensures HostnameMatchesDomain(hostname, domain)
       <==> SameLetters(hostname, domain)
            || (exists k :: 0 < k <= |hostname| && hostname[k - 1] == '.' && SameLetters(hostname[k..], domain))
  {
    LoweredAlike(hostname, domain);
    if |hostname| > |domain| { LoweredAlike(hostname[|hostname| - |domain|..], domain); }
  }
}
