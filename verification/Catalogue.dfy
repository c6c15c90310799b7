/** The permissions a new user's role starts with, and those that open the admin panel. */
module Catalogue {
  /** The half about profile and uploads, and the half about keys and notifications. */
  const OWN_DATA: set<string> := {
    "profile.read.self", "profile.update.basic", "profile.update.email", "profile.update.password",
    "profile.update.avatar", "profile.delete.avatar", "uploads.create.own", "uploads.delete.own"
  }
  const OWN_KEYS: set<string> := {
    "api_keys.list", "api_keys.create", "api_keys.revoke", "notifications.list",
    "notifications.read.unread_count", "notifications.update.all_read", "notifications.update.read",
    "notifications.delete"
  }

  const APP_USER_PERMISSIONS: set<string> := OWN_DATA + OWN_KEYS

  const ADMIN_SURFACE_PERMISSIONS: set<string> := {
    "uploads.delete.any", "users.list", "users.read.basic", "users.read.deleted", "users.read.stats",
    "users.create.admin", "users.update.profile", "users.update.email", "users.update.role",
    "users.update.avatar", "users.delete.avatar", "users.resend.verification", "users.resend.admin_invite",
    "users.activate", "users.deactivate", "users.delete", "users.restore", "roles.list",
    "roles.read.detail", "roles.create", "roles.update.description", "roles.update.permissions",
    "roles.delete", "audit_logs.list", "audit_logs.stream", "audit_logs.read.detail"
  }

  lemma SixteenPermissions()
    ensures |APP_USER_PERMISSIONS| == 16
  {
    EightAndEight();
    forall p | p in OWN_DATA ensures p !in OWN_KEYS { FirstLetters(p); }
    assert |OWN_DATA + OWN_KEYS| == |OWN_DATA| + |OWN_KEYS|;
  }

  lemma EightAndEight()
    ensures |OWN_DATA| == 8 && |OWN_KEYS| == 8
  {
  }

  lemma FirstLetters(p: string)
    ensures p in OWN_DATA ==> |p| > 0 && p[0] in {'p', 'u'}
    ensures p in OWN_KEYS ==> |p| > 0 && p[0] in {'a', 'n'}
  {
  }

  lemma StartingPermissionsStayOutside(p: string)
    requires p in APP_USER_PERMISSIONS
    ensures p !in ADMIN_SURFACE_PERMISSIONS
  {
    if p in ADMIN_SURFACE_PERMISSIONS {
      StartingPermission(p);
      PanelPermission(p);
    }
  }

  /** Starting permissions begin with "p", "n", "ap" or "up", and of the last kind only those for one's
      own uploads. */
  lemma StartingPermission(p: string)
    requires p in APP_USER_PERMISSIONS
    ensures |p| > 1 && (p[0] in {'p', 'n'} || p[1] == 'p') && p != "uploads.delete.any"
  {
    assert "uploads.create.own"[8] != "uploads.delete.any"[8];
    assert "uploads.delete.own"[15] != "uploads.delete.any"[15];
  }

  /** Those of the panel begin with "r", "us" or "au", but for one. */
  lemma PanelPermission(p: string)
    requires p in ADMIN_SURFACE_PERMISSIONS
    ensures |p| > 1 && (p[0] == 'r' || (p[0] in {'u', 'a'} && p[1] in {'s', 'u'}) || p == "uploads.delete.any")
  {
  }
}
