/** The persisted state and the operations that change it. Each operation
    follows the script's read-modify-write pattern: `load` the whole
    collection (falling back to the default), change the loaded value, `save`
    it back whole. Form values, fresh ids, timestamps, the measured video
    duration and the file's data URL arrive as parameters. */
module Store {
  import opened Js
  import opened Seqs
  import opened Records

  /** `showConfettiIfMilestone`: the celebration runs from 100% up. */
  predicate Milestone(progress: Number)
  {
    AtLeast(progress, 100.0)
  }

  /** The confetti fires at and above 100 and never below it or for NaN. */
  lemma MilestoneThreshold(x: real)
    ensures Milestone(Num(x)) <==> x >= 100.0
    ensures Milestone(Num(100.0)) && !Milestone(Num(99.0)) && !Milestone(NaN)
  {
  }

  /** `videos.find(v => v.size === file.size && v.name === file.name)` finds one. */
  predicate HasDuplicate(videos: seq<Video>, file: FileInfo)
  {
    exists i :: 0 <= i < |videos| && videos[i].size == file.size && videos[i].name == file.name
  }

  /** No two stored videos share both file name and size. */
  ghost predicate DistinctFiles(videos: seq<Video>)
  {
    forall i, j :: 0 <= i < j < |videos| ==>
      !(videos[i].name == videos[j].name && videos[i].size == videos[j].size)
  }

  /** `videos.filter(v => v.id !== id)`. */
  function WithoutId(videos: seq<Video>, id: string): seq<Video>
  {
    Filter(videos, (v: Video) => v.id != id)
  }

  /** Deleting leaves no video with that id, keeps every other video in its
      original relative order, and changes nothing for an unknown id. */
  lemma WithoutIdSpec(videos: seq<Video>, id: string)
    ensures forall i :: 0 <= i < |WithoutId(videos, id)| ==> WithoutId(videos, id)[i].id != id
    ensures forall i :: 0 <= i < |videos| && videos[i].id != id ==> videos[i] in WithoutId(videos, id)
    ensures Subsequence(WithoutId(videos, id), videos)
    ensures (forall i :: 0 <= i < |videos| ==> videos[i].id != id) ==> WithoutId(videos, id) == videos
  {
    var p := (v: Video) => v.id != id;
    FilterIsSubsequence(videos, p);
    if forall i :: 0 <= i < |videos| ==> videos[i].id != id {
      FilterKeepsAll(videos, p);
    }
  }

  /** An accepted upload keeps the stored files distinct. */
  lemma UploadKeepsFilesDistinct(videos: seq<Video>, v: Video)
    requires DistinctFiles(videos)
    requires !HasDuplicate(videos, FileInfo(v.name, v.size))
    ensures DistinctFiles(videos + [v])
  {
    var r := videos + [v];
    forall i, j | 0 <= i < j < |r| ensures !(r[i].name == r[j].name && r[i].size == r[j].size) {
      if j == |videos| {
        assert r[i] == videos[i];
      }
    }
  }

  /** So does a deletion. */
  lemma DeleteKeepsFilesDistinct(videos: seq<Video>, id: string)
    requires DistinctFiles(videos)
    ensures DistinctFiles(WithoutId(videos, id))
  {
    var p := (v: Video) => v.id != id;
    FilterIsSubsequence(videos, p);
    SubsequencePairwise(WithoutId(videos, id), videos,
      (a: Video, b: Video) => !(a.name == b.name && a.size == b.size));
  }

  datatype Registration = MissingFields | ConsentRequired | Registered(user: User)

  datatype Upload = NoFileChosen | DuplicateBlocked | TooShort | Uploaded(video: Video)

  /** The browser's local storage, one slot per key the script uses:
      sportsz_users, sportsz_history, sportsz_videos, sportsz_community,
      sportsz_dream and sportsz_quotes. */
  class Storage {
    var users: Slot<seq<User>>
    var history: Slot<seq<Entry>>
    var videos: Slot<seq<Video>>
    var community: Slot<seq<Post>>
    var dream: Slot<Dream>
    var quotes: Slot<seq<string>>

    /** Whatever the browser already holds under the six keys. */
    constructor(users: Slot<seq<User>>, history: Slot<seq<Entry>>, videos: Slot<seq<Video>>,
                community: Slot<seq<Post>>, dream: Slot<Dream>, quotes: Slot<seq<string>>)
      ensures this.users == users && this.history == history && this.videos == videos
      ensures this.community == community && this.dream == dream && this.quotes == quotes
    {
      this.users := users;
      this.history := history;
      this.videos := videos;
      this.community := community;
      this.dream := dream;
      this.quotes := quotes;
    }

    /** Start-up: the default quotes are written only when the quotes key is
        empty; an unreadable value is truthy and is left alone. */
    method InitQuotes()
      modifies this`quotes
      ensures quotes == if old(quotes).Absent? then Save(DefaultQuotes) else old(quotes)
    {
      if quotes.Absent? {
        quotes := Save(DefaultQuotes);
      }
    }

    /** `saveDream`: both fields are overwritten; the result says whether the
        confetti milestone fires. */
    method SaveDream(goalInput: string, progress: Number) returns (celebrate: bool)
      modifies this`dream
      ensures dream == Save(Dream(Trim(goalInput), progress))
      ensures celebrate <==> AtLeast(progress, 100.0)
    {
      var goal := Trim(goalInput);
      dream := Save(Dream(goal, progress));
      celebrate := Milestone(progress);
    }

    /** `updateDreamProgress`: only the progress changes; the stored goal (or
        the default's empty goal) is kept. No milestone check here. */
    method UpdateDreamProgress(progress: Number)
      modifies this`dream
      ensures dream.Holds?
      ensures dream.value.goal == old(dream).Load(DefaultDream).goal
      ensures dream.value.progress == progress
    {
      var d := dream.Load(DefaultDream);
      d := d.(progress := progress);
      dream := Save(d);
    }

    /** `registerUser`: the trimmed name, the age and the trimmed sport must
        all be truthy, then consent must be given; only then is one user
        appended. A negative age passes, as `!age` only rejects 0 and NaN. */
    method RegisterUser(nameInput: string, age: Number, genderInput: string, locationInput: string,
                        sportInput: string, consent: bool, id: string, createdAt: int)
      returns (outcome: Registration)
      modifies this`users
      ensures outcome.MissingFields? <==> Trim(nameInput) == "" || !Truthy(age) || Trim(sportInput) == ""
      ensures outcome.ConsentRequired? <==>
                Trim(nameInput) != "" && Truthy(age) && Trim(sportInput) != "" && !consent
      ensures !outcome.Registered? ==> users == old(users)
      ensures outcome.Registered? ==>
                && outcome.user == User(id, Trim(nameInput), age, Trim(genderInput), Trim(locationInput),
                                        Trim(sportInput), createdAt)
                && users == Save(old(users).Load([]) + [outcome.user])
    {
      var name := Trim(nameInput);
      var gender := Trim(genderInput);
      var location := Trim(locationInput);
      var sport := Trim(sportInput);
      if name == "" || !Truthy(age) || sport == "" {
        return MissingFields;
      }
      if !consent {
        return ConsentRequired;
      }
      var all := users.Load([]);
      var user := User(id, name, age, gender, location, sport, createdAt);
      all := all + [user];
      users := Save(all);
      outcome := Registered(user);
    }

    /** `addHistory`: the entry goes last, every earlier entry stays. */
    method AddHistory(e: Entry)
      modifies this`history
      ensures history == Save(old(history).Load([]) + [e])
    {
      var hist := history.Load([]);
      hist := hist + [e];
      history := Save(hist);
    }

    /** `calculateSpeed`: a manual run is recorded only when distance and time
        are both truthy (non-zero, not NaN). `speed` is the rounded quotient. */
    method CalculateSpeed(distance: Number, time: Number, speed: real, ts: int) returns (recorded: bool)
      modifies this`history
      ensures recorded <==> Truthy(distance) && Truthy(time)
      ensures !recorded ==> history == old(history)
      ensures recorded ==>
                history == Save(old(history).Load([])
                                + [Entry(ManualRunKind, distance.value, time.value, speed, ts)])
    {
      if !Truthy(distance) || !Truthy(time) {
        return false;
      }
      AddHistory(Entry(ManualRunKind, distance.value, time.value, speed, ts));
      recorded := true;
    }

    /** `uploadVideo` as one synchronous step: no file, a stored video with the
        same name and size, or a duration below one second (NaN is not below
        it) each leave the videos untouched; otherwise one video is appended. */
    method UploadVideo(file: Option<FileInfo>, duration: Number, data: string, id: string, ts: int)
      returns (outcome: Upload)
      modifies this`videos
      ensures outcome.NoFileChosen? <==> file.None?
      ensures outcome.DuplicateBlocked? <==> file.Some? && HasDuplicate(old(videos).Load([]), file.value)
      ensures outcome.TooShort? <==>
                file.Some? && !HasDuplicate(old(videos).Load([]), file.value) && Below(duration, 1.0)
      ensures !outcome.Uploaded? ==> videos == old(videos)
      ensures outcome.Uploaded? ==>
                && outcome.video == Video(id, file.value.name, file.value.size, duration, data, ts)
                && videos == Save(old(videos).Load([]) + [outcome.video])
    {
      if file.None? {
        return NoFileChosen;
      }
      var f := file.value;
      var stored := videos.Load([]);
      if HasDuplicate(stored, f) {
        return DuplicateBlocked;
      }
      if Below(duration, 1.0) {
        return TooShort;
      }
      var item := Video(id, f.name, f.size, duration, data, ts);
      stored := stored + [item];
      videos := Save(stored);
      outcome := Uploaded(item);
    }

    /** `deleteVideo`: the filtered list is saved back, even when nothing matched. */
    method DeleteVideo(id: string)
      modifies this`videos
      ensures videos == Save(WithoutId(old(videos).Load([]), id))
    {
      var stored := videos.Load([]);
      stored := WithoutId(stored, id);
      videos := Save(stored);
    }

    /** `postTalent`: a post needs a non-blank name and title. */
    method PostTalent(nameInput: string, titleInput: string, id: string, ts: int) returns (posted: bool)
      modifies this`community
      ensures posted <==> Trim(nameInput) != "" && Trim(titleInput) != ""
      ensures !posted ==> community == old(community)
      ensures posted ==>
                community == Save(old(community).Load([]) + [Post(id, Trim(nameInput), Trim(titleInput), ts)])
    {
      var name := Trim(nameInput);
      var title := Trim(titleInput);
      if name == "" || title == "" {
        return false;
      }
      var feed := community.Load([]);
      feed := feed + [Post(id, name, title, ts)];
      community := Save(feed);
      posted := true;
    }
  }

  /** The page's running timer (`runStart`), kept outside local storage. */
  class RunTimer {
    var runStart: Option<real>

    constructor()
      ensures runStart == None
    {
      runStart := None;
    }

    /** `!runStart` is false: a start time is held and is not 0. */
    predicate Running()
      reads this
    {
      runStart.Some? && runStart.value != 0.0
    }

    /** `startRunTimer` after the camera request: records the start time. */
    method Start(now: real)
      modifies this
      ensures runStart == Some(now)
    {
      runStart := Some(now);
    }

    /** `endRunTimer`: ignored when the timer is not running; otherwise the
        timer stops and, when the distance is positive, a run with the elapsed
        seconds is appended to the history. */
    method End(store: Storage, now: real, distance: Number, speed: real, ts: int) returns (recorded: bool)
      modifies this, store`history
      ensures !old(Running()) ==> runStart == old(runStart) && store.history == old(store.history)
      ensures old(Running()) ==> runStart == None
      ensures recorded <==> old(Running()) && distance.Num? && distance.value > 0.0
      ensures !recorded ==> store.history == old(store.history)
      ensures recorded ==>
                store.history == Save(old(store.history).Load([])
                                      + [Entry(RunKind, distance.value, (now - old(runStart).value) / 1000.0, speed, ts)])
    {
      if !Running() {
        return false;
      }
      var elapsed := (now - runStart.value) / 1000.0;
      runStart := None;
      if distance.Num? && distance.value > 0.0 {
        store.AddHistory(Entry(RunKind, distance.value, elapsed, speed, ts));
        recorded := true;
      } else {
        recorded := false;
      }
    }
  }
}
