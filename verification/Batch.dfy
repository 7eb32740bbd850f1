/** One batch of arguments interpreted against the loaded hosts: `range2ips` and `build_hostnames`. */
module Batch {
  import opened Wrappers
  import opened Strings
  import opened DottedQuad
  import opened Hosts

  // ---------- Host ids (inventory.py:174-180) ----------

  /** The number that ends the part of the name before its first dot. */
  function GetHostId(host: string): Result<nat> {
    var digits := TrailingDigits(Split(host, '.')[0]);
    if digits == "" then Failure(ValueError) else Success(ParseNat(digits))
  }

  /** The highest id of the loaded names that carry the prefix, and `highest` if none is above it (inventory.py:190-199). */
  function HighestFrom(prefix: string, names: seq<string>, highest: nat): Result<nat>
    decreases |names|
  {
    if names == [] then Success(highest)
    else if StartsWith(names[0], prefix) then
      var id :- GetHostId(names[0]);
      HighestFrom(prefix, names[1..], if id > highest then id else highest)
    else
      HighestFrom(prefix, names[1..], highest)
  }

  function HostName(prefix: string, id: nat): string {
    prefix + Decimal(id)
  }

  // ---------- Ranges (inventory.py:270-293) ----------

  function QuadRange(start: nat, end: nat): seq<string>
    requires start < ADDRESS_LIMIT && end < ADDRESS_LIMIT
  {
    if start > end then [] else seq(end - start + 1, i requires 0 <= i <= end - start => Quad(start + i))
  }

  predicate IsRange(arg: string) {
    '-' in arg && arg[0] != '-' && !IsAlpha(arg[0])
  }

  function ExpandArg(arg: string): Result<seq<string>> {
    if IsRange(arg) then
      var ends := Split(Strip(arg), '-');
      if |ends| != 2 then Failure(ValueError)
      else
        var start :- ParseQuad(ends[0]);
        var end :- ParseQuad(ends[1]);
        Success(QuadRange(start, end))
    else
      Success([arg])
  }

  function Expand(args: seq<string>): Result<seq<string>> {
    if args == [] then Success([])
    else
      var first :- ExpandArg(args[0]);
      var rest :- Expand(args[1..]);
      Success(first + rest)
  }

  // ---------- One argument (inventory.py:211-266) ----------

  datatype Address = Address(ip: string, access: string)

  /**
   * What the loop carries from one argument to the next: the hosts, the id counter, and the locals `hostname` and
   * `ip`, `access_ip`, which a bare host name reads as an earlier argument left them.
   */
  datatype Batch = Batch(hosts: seq<Host>, nextId: nat, hostname: Option<string>, address: Option<Address>)

  predicate IsDelete(arg: string) {
    arg != "" && arg[0] == '-'
  }

  predicate IsAddress(arg: string) {
    arg != "" && IsDigit(arg[0])
  }

  predicate IsNamed(arg: string) {
    arg != "" && IsAlpha(arg[0])
  }

  function DeleteStep(b: Batch, target: string): Result<Batch> {
    if target in Names(b.hosts) then Success(b.(hosts := Remove(b.hosts, target)))
    else
      var found :- ExistsIp(b.hosts, target);
      if found then
        var rest :- DeleteByIp(b.hosts, target);
        Success(b.(hosts := rest))
      else
        Success(b)
  }

  function ParseAddress(arg: string): Result<Address> {
    var parts := Split(arg, ',');
    if |parts| == 1 then Success(Address(arg, arg))
    else if |parts| == 2 then Success(Address(parts[0], parts[1]))
    else Failure(ValueError)
  }

  function AddressStep(prefix: string, b: Batch, arg: string): Result<Batch> {
    var a :- ParseAddress(arg);
    var b' := b.(address := Some(a));
    if arg in Names(b.hosts) then Success(b')
    else
      var found :- ExistsIp(b.hosts, a.ip);
      if found then Success(b')
      else
        Success(b'.(hosts := Put(b.hosts, HostName(prefix, b.nextId), Record(a.ip, a.access)), nextId := b.nextId + 1))
  }

  /** `hostname,ip[,access_ip]` sets the locals; without a comma they keep their earlier values. */
  function NamedLocals(b: Batch, arg: string): Result<Batch> {
    var parts := Split(arg, ',');
    if |parts| == 1 then Success(b)
    else if |parts| == 2 then Success(b.(hostname := Some(parts[0]), address := Some(Address(parts[1], parts[1]))))
    else if |parts| == 3 then Success(b.(hostname := Some(parts[0]), address := Some(Address(parts[1], parts[2]))))
    else Failure(ValueError)
  }

  function NamedStep(b: Batch, arg: string): Result<Batch> {
    var b' :- NamedLocals(b, arg);
    if arg in Names(b.hosts) then Success(b')
    else if b'.address.None? then Failure(UnboundLocalError)
    else
      var a := b'.address.value;
      var found :- ExistsIp(b.hosts, a.ip);
      if found then Success(b')
      else if b'.hostname.None? then Failure(UnboundLocalError)
      else Success(b'.(hosts := Put(b.hosts, b'.hostname.value, Record(a.ip, a.access))))
  }

  function StepHost(prefix: string, b: Batch, arg: string): Result<Batch> {
    if arg == "" then Failure(IndexError)
    else if IsDelete(arg) then DeleteStep(b, arg[1..])
    else if IsAddress(arg) then AddressStep(prefix, b, arg)
    else if IsNamed(arg) then NamedStep(b, arg)
    else Success(b)
  }

  function BuildFrom(prefix: string, b: Batch, args: seq<string>): Result<Batch>
    decreases |args|
  {
    if args == [] then Success(b)
    else
      var b' :- StepHost(prefix, b, args[0]);
      BuildFrom(prefix, b', args[1..])
  }

  /** The loop's start: the counter follows the highest loaded id, and an unreadable id exits (inventory.py:185-210). */
  function Start(prefix: string, loaded: seq<Host>): Result<Batch> {
    match HighestFrom(prefix, Names(loaded), 0)
    case Success(highest) => Success(Batch(loaded, highest + 1, None, None))
    case Failure(_) => Failure(SystemExit)
  }

  function Build(prefix: string, loaded: seq<Host>, args: seq<string>): Result<Batch> {
    var b :- Start(prefix, loaded);
    BuildFrom(prefix, b, args)
  }

  function BuildHostnames(prefix: string, loaded: seq<Host>, args: seq<string>): Result<seq<Host>> {
    var b :- Build(prefix, loaded, args);
    Success(b.hosts)
  }

  lemma {:induction false} BuildFromConcat(prefix: string, b: Batch, xs: seq<string>, ys: seq<string>)
    ensures BuildFrom(prefix, b, xs + ys) ==
            match BuildFrom(prefix, b, xs)
            case Success(b') => BuildFrom(prefix, b', ys)
            case Failure(e) => Failure(e)
    decreases |xs|
  {
    if xs == [] {
      assert xs + ys == ys;
    } else {
      assert (xs + ys)[1..] == xs[1..] + ys;
      var next := StepHost(prefix, b, xs[0]);
      if next.Success? {
        BuildFromConcat(prefix, next.value, xs[1..], ys);
      }
    }
  }
}
