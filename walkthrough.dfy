/** A client of the store, in the manner of the script's own event handlers:
    what a caller can conclude from the operations' contracts alone. */
module Walkthrough {
  import opened Js
  import opened Seqs
  import opened Records
  import opened Store

  /** Registration for an athlete whose name and sport were typed without
      surrounding blanks: the user is stored with the given fields. */
  method RegistrationAccepted(name: string, sport: string)
    requires name != "" && Trim(name) == name
    requires sport != "" && Trim(sport) == sport
  {
    // The unreadable users key is replaced by a one-user list.
    var s := new Storage(Absent, Unreadable, Absent, Absent, Absent, Absent);
    assert Truthy(Num(14.0)) && Trim(name) != "" && Trim(sport) != "";
    var r := s.RegisterUser(name, Num(14.0), "", "", sport, true, "u_1", 1000);
    assert r.Registered?;
    assert s.users.Load([]) == [r.user];
    assert r.user.name == name && r.user.sport == sport && r.user.age == Num(14.0);
  }

  /** The rejections: nothing is written for any of them. */
  method RegistrationRejected(name: string, sport: string)
    requires name != "" && Trim(name) == name
    requires sport != "" && Trim(sport) == sport
  {
    var s := new Storage(Absent, Absent, Absent, Absent, Absent, Absent);
    // An age field left empty reads as 0 and is rejected.
    var r1 := s.RegisterUser(name, Num(0.0), "", "", sport, true, "u_1", 1000);
    assert r1.MissingFields?;
    // A negative age is truthy and passes the first check.
    var r2 := s.RegisterUser(name, Num(-3.0), "", "", sport, false, "u_2", 1001);
    assert r2.ConsentRequired?;
    // A blank sport is missing.
    assert IsWhitespace(" "[0]);
    var r3 := s.RegisterUser(name, Num(15.0), "", "", " ", true, "u_3", 1002);
    assert r3.MissingFields?;
    assert s.users == Absent;
  }

  method ManualRuns()
  {
    var s := new Storage(Absent, Unreadable, Absent, Absent, Absent, Absent);
    // The unreadable history is replaced by a one-entry list on the first write.
    var ok := s.CalculateSpeed(Num(100.0), Num(12.5), 8.0, 2000);
    assert ok && s.history.Load([]) == [Entry(ManualRunKind, 100.0, 12.5, 8.0, 2000)];
    ok := s.CalculateSpeed(Num(100.0), NaN, 0.0, 2001);
    assert !ok && |s.history.Load([])| == 1;
  }

  method Uploads()
  {
    var s := new Storage(Absent, Absent, Absent, Absent, Absent, Absent);
    var clip := FileInfo("sprint.mp4", 2048);

    var u1 := s.UploadVideo(Some(clip), Num(4.5), "data:video/mp4;base64,AAAA", "v_1", 10);
    assert u1.Uploaded? && s.videos.Load([])[0].name == clip.name && s.videos.Load([])[0].size == clip.size;
    var u2 := s.UploadVideo(Some(clip), Num(6.0), "data:video/mp4;base64,BBBB", "v_2", 11);
    assert u2.DuplicateBlocked?;
    var u3 := s.UploadVideo(Some(FileInfo("jump.mp4", 10)), Num(0.5), "data:", "v_3", 12);
    assert u3.TooShort?;
    assert |s.videos.Load([])| == 1;

    s.DeleteVideo("v_1");
    assert s.videos.Load([]) == [] by {
      WithoutIdSpec([u1.video], "v_1");
    }
  }

  method DreamBoard()
  {
    var s := new Storage(Absent, Absent, Absent, Absent, Absent, Absent);
    TrimKeeps("State finals");
    var party := s.SaveDream("State finals", Num(100.0));
    assert party;
    var none := s.SaveDream("State finals", Num(99.0));
    assert !none;
    s.UpdateDreamProgress(Num(120.0));
    assert s.dream.value.goal == "State finals";
  }
}
