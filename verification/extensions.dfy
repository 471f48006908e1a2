/**
 The allow-list of image and video file suffixes. The C++ listing parser and
 the Python widget carry the same two lists, including the upper-case "R3D"
 entry and the duplicated "raw", "flv" and "m4v".
 */
module Extensions {
  import opened Text

  const ImageExtensions: set<string> :=
    {"png", "jpg", "jpeg", "gif", "3fr", "ari", "arw", "bay", "braw",
     "cri", "crw", "cap", "dcs", "dng", "erf", "fff", "gpr", "jxs",
     "mef", "mdc", "mos", "mrw", "nef", "orf", "pef", "pxn", "R3D",
     "raf", "raw", "raw", "rwz", "srw", "tco", "x3f"}

  const VideoExtensions: set<string> :=
    {"webm", "mkv", "flv", "vob", "ogv", "ogg", "rrc", "gifv", "mng", "mov", "avi", "qt", "wmv",
     "yuv", "rm", "asf", "amv", "mp4", "m4p", "m4v", "mpg", "mp2", "mpeg", "mpe", "mpv", "m4v",
     "svi", "3gp", "3g2", "mxf", "roq", "nsv", "flv", "f4v", "f4p", "f4a", "f4b", "mod"}

  const AllowedExtensions: set<string> := ImageExtensions + VideoExtensions

  /** A suffix is accepted when its lower-cased form is in the allow-list. */
  predicate Allowed(suffix: string) {
    ToLower(suffix) in AllowedExtensions
  }

  /**
   The allow-list holds "R3D" in upper case while every suffix is lower-cased
   before the test, so no suffix at all is accepted through that entry; the
   remaining entries accept their suffix in any letter case.
   */
  lemma R3DNeverAccepted(suffix: string)
    ensures ToLower(suffix) != "R3D"
    ensures Allowed(suffix) <==> ToLower(suffix) in AllowedExtensions - {"R3D"}
    ensures ToLower(suffix) == "r3d" ==> !Allowed(suffix)
    ensures ToLower(suffix) == "mp4" ==> Allowed(suffix)
  {
    if |suffix| == 3 {
      assert ToLower(suffix)[0] != 'R';
    }
  }

  /** Lower-casing leaves text without upper-case letters as it is. */
  lemma LowerOfLower(s: string)
    requires forall i :: 0 <= i < |s| ==> !('A' <= s[i] <= 'Z')
    ensures ToLower(s) == s
  {
  }

  /** Every entry except "R3D" is written in lower case. */
  lemma ListedLowerCase(e: string)
    ensures e in AllowedExtensions && e != "R3D" ==> forall i :: 0 <= i < |e| ==> !('A' <= e[i] <= 'Z')
  {
  }

  /**
   Every entry of the allow-list other than "R3D" is accepted, as written
   and in any spelling that lower-cases to it.
   */
  lemma ListedAccepted(e: string, s: string)
    ensures e in AllowedExtensions && e != "R3D" && ToLower(s) == ToLower(e) ==> Allowed(e) && Allowed(s)
  {
    ListedLowerCase(e);
    if e in AllowedExtensions && e != "R3D" {
      LowerOfLower(e);
    }
  }

  /** No listed suffix is empty or longer than four letters. */
  lemma AllowListRefuses(suffix: string)
    requires |suffix| == 0 || |suffix| > 4
    ensures !Allowed(suffix)
  {
    assert forall e :: e in ImageExtensions ==> 0 < |e| <= 4;
    assert forall e :: e in VideoExtensions ==> 0 < |e| <= 4;
  }
}
