/**
 * The library seat simulation: a library with a fixed number of seats, a
 * queue of students studying and a queue of students waiting for a seat.
 * A student who finds a free seat takes it; otherwise they wait. When a
 * studying student leaves, the first waiting student takes the freed seat.
 *
 * Only the bookkeeping is modelled: the mutex, the wait group, the clock
 * goroutine and the sleeping are left out, and every operation runs as one
 * atomic step, which is what the mutex gives the original.
 */
module Library {
  import opened Wrappers

  const MaxSeats := 30
  const TotalStudents := 100
  const MinStudyHours := 1
  const MaxStudyHours := 4

  /** A library visitor. The id and the study time are fixed when the student is made. */
  class Student {
    const id: int
    const studyHours: int
    var arrivalTime: int
    var leaveTime: int

    constructor (id: int, studyHours: int)
      ensures this.id == id && this.studyHours == studyHours
      ensures arrivalTime == 0 && leaveTime == 0
    {
      this.id := id;
      this.studyHours := studyHours;
      arrivalTime := 0;
      leaveTime := 0;
    }
  }

  /** The position of the first student in `q` with the given id, if any. */
  function IdIndex(q: seq<Student>, id: int): (r: Option<nat>)
    ensures r.None? <==> forall j :: 0 <= j < |q| ==> q[j].id != id
    ensures r.Some? ==> r.value < |q| && q[r.value].id == id
    ensures r.Some? ==> forall j :: 0 <= j < r.value ==> q[j].id != id
  {
    if q == [] then None
    else if q[0].id == id then Some(0)
    else match IdIndex(q[1..], id)
      case None => None
      case Some(k) => Some(k + 1)
  }

  /** `q` with the student at position `i` taken out, the others keeping their order. */
  function Without(q: seq<Student>, i: nat): (r: seq<Student>)
    requires i < |q|
    ensures |r| == |q| - 1
    ensures forall j :: 0 <= j < i ==> r[j] == q[j]
    ensures forall j :: i <= j < |r| ==> r[j] == q[j + 1]
  {
    q[..i] + q[i + 1..]
  }

  class Library {
    var seats: int
    const maxSeats: int
    var waitingQ: seq<Student>
    var studyingQ: seq<Student>
    var hour: int
    var totalHours: int

    /**
     * The seat bookkeeping: every seat is either free or held by a studying
     * student, and nobody waits while a seat is free.
     */
    predicate Valid()
      reads this
    {
      && seats + |studyingQ| == maxSeats
      && (seats < 0 ==> studyingQ == [])
      && (waitingQ != [] ==> seats <= 0)
    }

    /** `NewLibrary`: all seats free, both queues empty, the clock at hour 0. */
    constructor (maxSeats: int)
      ensures this.maxSeats == maxSeats && seats == maxSeats
      ensures waitingQ == [] && studyingQ == []
      ensures hour == 0 && totalHours == 0
      ensures Valid()
    {
      seats := maxSeats;
      this.maxSeats := maxSeats;
      waitingQ := [];
      studyingQ := [];
      hour := 0;
      totalHours := 0;
    }

    /** One tick of the simulation clock. */
    method Tick()
      requires Valid()
      modifies this
      ensures hour == old(hour) + 1
      ensures seats == old(seats) && waitingQ == old(waitingQ) && studyingQ == old(studyingQ)
      ensures totalHours == old(totalHours)
      ensures Valid()
    {
      hour := hour + 1;
    }

    /**
     * `EnterLibrary`: the student's arrival time is the current hour; they
     * take a free seat if there is one and otherwise join the end of the
     * waiting queue.
     */
    method EnterLibrary(s: Student)
      requires Valid()
      modifies this, s
      ensures s.arrivalTime == old(hour) && s.leaveTime == old(s.leaveTime)
      ensures hour == old(hour) && totalHours == old(totalHours)
      ensures old(seats) > 0 ==> seats == old(seats) - 1 && studyingQ == old(studyingQ) + [s] && waitingQ == old(waitingQ)
      ensures old(seats) <= 0 ==> seats == old(seats) && studyingQ == old(studyingQ) && waitingQ == old(waitingQ) + [s]
      ensures Valid()
    {
      s.arrivalTime := hour;
      if seats > 0 {
        seats := seats - 1;
        studyingQ := studyingQ + [s];
      } else {
        waitingQ := waitingQ + [s];
      }
    }

    /**
     * `LeaveLibrary`: the first studying student with the leaving student's
     * id gives up their seat and the leaving student's leave time is the
     * current hour; the head of the waiting queue, if any, then takes the
     * seat at the end of the studying queue, with the current hour as its
     * arrival time. A student who is not studying changes nothing.
     */
    method LeaveLibrary(s: Student)
      requires Valid()
      modifies this, s, if waitingQ == [] then {} else {waitingQ[0]}
      ensures hour == old(hour) && totalHours == old(totalHours)
      ensures IdIndex(old(studyingQ), s.id).None? ==>
        && seats == old(seats) && studyingQ == old(studyingQ) && waitingQ == old(waitingQ)
        && s.leaveTime == old(s.leaveTime) && s.arrivalTime == old(s.arrivalTime)
      ensures IdIndex(old(studyingQ), s.id).None? && old(waitingQ) != [] ==>
        old(waitingQ)[0].arrivalTime == old(waitingQ[0].arrivalTime) && old(waitingQ)[0].leaveTime == old(waitingQ[0].leaveTime)
      ensures IdIndex(old(studyingQ), s.id).Some? && old(waitingQ) == [] ==>
        && seats == old(seats) + 1 && waitingQ == []
        && studyingQ == Without(old(studyingQ), IdIndex(old(studyingQ), s.id).value)
        && s.leaveTime == old(hour)
      ensures IdIndex(old(studyingQ), s.id).Some? && old(waitingQ) != [] ==>
        && seats == old(seats) && waitingQ == old(waitingQ)[1..]
        && studyingQ == Without(old(studyingQ), IdIndex(old(studyingQ), s.id).value) + [old(waitingQ)[0]]
        && s.leaveTime == old(hour) && old(waitingQ)[0].arrivalTime == old(hour)
      ensures s.arrivalTime == old(s.arrivalTime) || (old(waitingQ) != [] && s == old(waitingQ)[0])
      ensures old(waitingQ) != [] && old(waitingQ)[0] != s ==> old(waitingQ)[0].leaveTime == old(waitingQ[0].leaveTime)
      ensures Valid()
    {
      for i := 0 to |studyingQ|
        invariant forall j :: 0 <= j < i ==> studyingQ[j].id != s.id
      {
        if studyingQ[i].id == s.id {
          studyingQ := Without(studyingQ, i);
          seats := seats + 1;
          s.leaveTime := hour;
          if |waitingQ| > 0 {
            var waitingStudent := waitingQ[0];
            waitingQ := waitingQ[1..];
            seats := seats - 1;
            waitingStudent.arrivalTime := hour;
            studyingQ := studyingQ + [waitingStudent];
          }
          return;
        }
      }
    }

    /** With a non-negative capacity, the free seats stay between none and all, and nobody waits while one is free. */
    lemma SeatsInRange()
      requires Valid() && maxSeats >= 0
      ensures 0 <= seats <= maxSeats
      ensures waitingQ != [] ==> seats == 0
      ensures |studyingQ| <= maxSeats
    {
    }
  }

  /**
   * The students of one day: ids 1 to 100 in order, each studying for one to
   * four hours. `hourDraws` holds the generator's draws, each below the
   * number of possible study times.
   */
  method MakeStudents(hourDraws: seq<int>) returns (students: seq<Student>)
    requires |hourDraws| == TotalStudents
    requires forall i :: 0 <= i < |hourDraws| ==> 0 <= hourDraws[i] < MaxStudyHours - MinStudyHours + 1
    ensures |students| == TotalStudents
    ensures forall i :: 0 <= i < |students| ==> students[i].id == i + 1
    ensures forall i :: 0 <= i < |students| ==> students[i].studyHours == hourDraws[i] + MinStudyHours
    ensures forall i :: 0 <= i < |students| ==> MinStudyHours <= students[i].studyHours <= MaxStudyHours
  {
    students := [];
    for i := 0 to TotalStudents
      invariant |students| == i
      invariant forall j :: 0 <= j < i ==> students[j].id == j + 1
      invariant forall j :: 0 <= j < i ==> students[j].studyHours == hourDraws[j] + MinStudyHours
    {
      var student := new Student(i + 1, hourDraws[i] + MinStudyHours);
      students := students + [student];
    }
  }

  /** Made students have distinct ids. */
  lemma IdsDistinct(students: seq<Student>)
    requires forall i :: 0 <= i < |students| ==> students[i].id == i + 1
    ensures forall i, j :: 0 <= i < j < |students| ==> students[i].id != students[j].id
  {
  }

  /**
   * The hours the library had to stay open: the latest leave time of all
   * students, and 0 when nobody left later than hour 0.
   */
  method MaxLeaveTime(students: seq<Student>) returns (maxLeaveTime: int)
    ensures maxLeaveTime >= 0
    ensures forall i :: 0 <= i < |students| ==> students[i].leaveTime <= maxLeaveTime
    ensures maxLeaveTime == 0 || exists i :: 0 <= i < |students| && students[i].leaveTime == maxLeaveTime
  {
    maxLeaveTime := 0;
    for k := 0 to |students|
      invariant maxLeaveTime >= 0
      invariant forall i :: 0 <= i < k ==> students[i].leaveTime <= maxLeaveTime
      invariant maxLeaveTime == 0 || exists i :: 0 <= i < k && students[i].leaveTime == maxLeaveTime
    {
      if students[k].leaveTime > maxLeaveTime {
        maxLeaveTime := students[k].leaveTime;
      }
    }
  }
}
