/** The records the agent exchanges with the cloud and keeps in its store,
    reduced to the fields the modelled code reads or writes. */
module Model {

  datatype Option<+T> = None | Some(value: T)

  // name and version of an application, as listed in a report or a desire
  datatype AppInfo = AppInfo(name: string, version: string)

  // how a volume names a configuration or a secret
  datatype ObjectRef = ObjectRef(name: string, version: string)

  // A path on the host: given by the application or made from it under the
  // host directory, or the directory name/version of an object configuration.
  datatype HostPath = Given(path: string) | ObjectDir(name: string, version: string)

  datatype Volume = Volume(name: string, hostPath: Option<HostPath>, config: Option<ObjectRef>,
                           secret: Option<ObjectRef>)

  datatype VolumeMount = VolumeMount(name: string, autoClean: bool)

  // hostPorts holds one entry per container port; 0 means no host port
  datatype Service = Service(name: string, replica: int, hostPorts: seq<int>, mounts: seq<VolumeMount>)

  datatype Workload = Job | OtherWorkload

  datatype Application = Application(name: string, version: string, workload: Workload, updateTime: int, replica: int,
                                     services: seq<Service>, volumes: seq<Volume>)

  // isProgram: the label baetyl-config-type is present and is baetyl-program
  datatype Configuration = Configuration(name: string, version: string, isProgram: bool, data: map<string, string>)

  datatype Secret = Secret(name: string, version: string, data: map<string, string>)

  datatype Status = Succeeded | Failed | Running | UnknownStatus

  // What one "+=" adds to a Cause text
  datatype Complaint =
    | ReplicaWithHostPort(subject: string)
    | ServiceTaken(service: string, app: string, winner: string)
    | PortTaken(port: int, subject: string, winner: string)
    | ApplyError(app: string)

  datatype InstanceStats = InstanceStats(serviceName: string, appName: string, status: Status, cause: seq<Complaint>)

  datatype AppStats = AppStats(info: AppInfo, status: Status, cause: seq<Complaint>,
                               instances: map<string, InstanceStats>)

  const OBJECT_PREFIX := "_object_"

  predicate IsConfigObject(key: string) {
    OBJECT_PREFIX <= key
  }

  predicate IsObjectConfig(cfg: Configuration) {
    exists k :: k in cfg.data && IsConfigObject(k)
  }

  predicate Contains(s: string, part: string) {
    exists i :: 0 <= i <= |s| && part <= s[i..]
  }

  /** part occurs in s with some text before and some after it. */
  lemma {:induction false} ContainsExactly(s: string, part: string)
    ensures Contains(s, part) <==> exists a, b :: s == a + part + b
  {
    if i :| 0 <= i <= |s| && part <= s[i..] {
      assert s == s[..i] + part + s[i + |part|..];
    }
    if a, b :| s == a + part + b {
      assert s[|a|..] == part + b;
    }
  }

  /** order visits every element of s once: one possible iteration of a Go map with key set s. */
  ghost predicate IsOrder<T>(order: seq<T>, s: set<T>) {
    && (forall i, j :: 0 <= i < j < |order| ==> order[i] != order[j])
    && (forall x :: x in s ==> x in order)
    && (forall i :: 0 <= i < |order| ==> order[i] in s)
  }

  /** The next key a Go range over a map visits: any of those left. */
  method Pick<T(==)>(s: set<T>) returns (x: T)
    requires s != {}
    ensures x in s
  {
    x :| x in s;
  }

  lemma {:induction false} HeadIn<T>(s: seq<T>)
    ensures s == [] || s[0] in s
  {
  }

  lemma {:induction false} ExtendOrder<T>(order: seq<T>, s: set<T>, x: T)
    requires IsOrder(order, s) && x !in s
    ensures IsOrder(order + [x], s + {x})
  {
  }

  lemma {:induction false} OrderLength<T>(order: seq<T>, s: set<T>)
    requires IsOrder(order, s)
    ensures |order| == |s|
  {
    if order != [] {
      var front, last := order[..|order| - 1], order[|order| - 1];
      assert order == front + [last];
      OrderLength(front, s - {last});
    } else {
      assert s == {};
    }
  }

  /** There is always some order, and one that ends with any given element. */
  lemma {:induction false} OrderEndingWith<T>(s: set<T>, x: T) returns (order: seq<T>)
    requires x in s
    ensures IsOrder(order, s) && order != [] && order[|order| - 1] == x
  {
    var front := SomeOrder(s - {x});
    order := front + [x];
    ExtendOrder(front, s - {x}, x);
    assert s - {x} + {x} == s;
  }

  lemma {:induction false} SomeOrder<T>(s: set<T>) returns (order: seq<T>)
    ensures IsOrder(order, s)
  {
    if s == {} {
      order := [];
    } else {
      var x :| x in s;
      var front := SomeOrder(s - {x});
      order := front + [x];
      ExtendOrder(front, s - {x}, x);
      assert s - {x} + {x} == s;
    }
  }
}
